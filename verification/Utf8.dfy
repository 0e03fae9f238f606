// UTF-8 as the Go runtime decodes it: RFC 3629 section 4, one rune at a time,
// with every byte that starts no well-formed sequence standing for U+FFFD.
module Utf8 {
  type Byte = b: int | 0 <= b < 0x100

  const RUNE_ERROR: nat := 0xfffd

  datatype Decoded = Decoded(rune: nat, width: nat)

  predicate IsContinuation(b: Byte) {
    0x80 <= b < 0xc0
  }

  // The six bits a continuation byte carries.
  function Low(b: Byte): nat
    requires IsContinuation(b)
  {
    var v: int := b;
    v - 0x80
  }

  // The second bytes that may follow a first byte of a longer sequence.
  predicate IsSecond(first: Byte, b: Byte) {
    var low := if first == 0xe0 then 0xa0 else if first == 0xf0 then 0x90 else 0x80;
    var high := if first == 0xed then 0xa0 else if first == 0xf4 then 0x90 else 0xc0;
    low <= b < high
  }

  // utf8.DecodeRune on a text that is not empty
  function Decode(s: seq<Byte>): (d: Decoded)
    requires s != []
    ensures 1 <= d.width <= |s| && d.width <= 4
    ensures d.width == 1 ==> d == Decoded(s[0], 1) || d == Decoded(RUNE_ERROR, 1)
    ensures s[0] < 0x80 <==> d.rune < 0x80
  {
    var a: int := s[0];
    if a < 0x80 then
      Decoded(a, 1)
    else if 0xc2 <= a < 0xe0 && |s| >= 2 && IsContinuation(s[1]) then
      Decoded((a - 0xc0) * 0x40 + Low(s[1]), 2)
    else if 0xe0 <= a < 0xf0 && |s| >= 3 && IsSecond(a, s[1]) && IsContinuation(s[2]) then
      Decoded(((a - 0xe0) * 0x40 + Low(s[1])) * 0x40 + Low(s[2]), 3)
    else if 0xf0 <= a < 0xf5 && |s| >= 4 && IsSecond(a, s[1]) && IsContinuation(s[2]) && IsContinuation(s[3]) then
      Decoded((((a - 0xf0) * 0x40 + Low(s[1])) * 0x40 + Low(s[2])) * 0x40 + Low(s[3]), 4)
    else
      Decoded(RUNE_ERROR, 1)
  }

  predicate IsBad(d: Decoded) {
    d.width == 1 && d.rune == RUNE_ERROR
  }

  // Decoding looks at no byte after the sequence it accepts.
  lemma DecodeIsLocal(s: seq<Byte>, rest: seq<Byte>)
    requires s != []
    ensures Decode(s + rest).width <= |s| ==> Decode(s + rest) == Decode(s)
    ensures !IsBad(Decode(s)) ==> Decode(s + rest) == Decode(s)
  {
    assert forall i :: 0 <= i < |s| ==> (s + rest)[i] == s[i];
  }

  // The decoded text, with U+FFFD for every bad byte.
  function Runes(s: seq<Byte>): seq<nat>
    decreases |s|
  {
    if s == [] then [] else [Decode(s).rune] + Runes(s[Decode(s).width..])
  }

  // The place `k` lies between two decoded runes.
  predicate IsBoundary(s: seq<Byte>, k: nat)
    decreases |s|
  {
    k == 0 || (s != [] && Decode(s).width <= k && IsBoundary(s[Decode(s).width..], k - Decode(s).width))
  }

  // utf8.Valid
  predicate WellFormed(s: seq<Byte>)
    decreases |s|
  {
    s == [] || (!IsBad(Decode(s)) && WellFormed(s[Decode(s).width..]))
  }

  // The bytes of one code point.
  function Encode(r: nat): seq<Byte>
    requires r < 0x11_0000
  {
    var (q, a) := (r / 0x40, 0x80 + r % 0x40);
    if r < 0x80 then [r]
    else if r < 0x800 then [0xc0 + q, a]
    else
      var (p, b) := (q / 0x40, 0x80 + q % 0x40);
      if r < 0x1_0000 then [0xe0 + p, b, a]
      else [0xf0 + p / 0x40, 0x80 + p % 0x40, b, a]
  }

  predicate IsScalar(r: nat) {
    r < 0x11_0000 && !(0xd800 <= r < 0xe000)
  }

  lemma Split(r: nat)
    ensures r == r / 0x40 * 0x40 + r % 0x40 && r % 0x40 < 0x40
  {
  }

  // A scalar value is decoded from its bytes.
  lemma EncodedDecodes(r: nat, rest: seq<Byte>)
    requires IsScalar(r)
    ensures Decode(Encode(r) + rest) == Decoded(r, |Encode(r)|)
  {
    var s := Encode(r) + rest;
    Split(r);
    Split(r / 0x40);
    Split(r / 0x40 / 0x40);
    assert forall i :: 0 <= i < |Encode(r)| ==> s[i] == Encode(r)[i];
  }

  // Nothing else is decoded: what is accepted are the bytes of the scalar value
  // that is read.
  lemma OnlyEncodingsDecode(s: seq<Byte>)
    requires s != [] && !IsBad(Decode(s))
    ensures IsScalar(Decode(s).rune) && s[..Decode(s).width] == Encode(Decode(s).rune)
  {
    var d := Decode(s);
    if d.width == 2 {
      Packed(s[0] - 0xc0, Low(s[1]));
    } else if d.width == 3 {
      Packed(s[0] - 0xe0, Low(s[1]));
      Packed((s[0] - 0xe0) * 0x40 + Low(s[1]), Low(s[2]));
    } else if d.width == 4 {
      Packed(s[0] - 0xf0, Low(s[1]));
      Packed((s[0] - 0xf0) * 0x40 + Low(s[1]), Low(s[2]));
      Packed(((s[0] - 0xf0) * 0x40 + Low(s[1])) * 0x40 + Low(s[2]), Low(s[3]));
    }
  }

  lemma Packed(high: nat, low: nat)
    requires low < 0x40
    ensures (high * 0x40 + low) / 0x40 == high && (high * 0x40 + low) % 0x40 == low
  {
  }
}
