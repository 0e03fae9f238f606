// Characters and strings as the Go source sees them.
//
// A string is a sequence of Unicode scalar values; byte sizes are those of its
// UTF-8 encoding.
module Texts {
  function RuneLen(c: char): nat {
    var v := c as int;
    if v < 0x80 then 1 else if v < 0x800 then 2 else if v < 0x1_0000 then 3 else 4
  }

  function Bytes(s: string): nat {
    if s == "" then 0 else RuneLen(s[0]) + Bytes(s[1..])
  }

  lemma {:induction false} BytesConcat(a: string, b: string)
    ensures Bytes(a + b) == Bytes(a) + Bytes(b)
  {
    if a == "" {
      assert a + b == b;
    } else {
      BytesConcat(a[1..], b);
      assert (a + b)[1..] == a[1..] + b;
    }
  }

  lemma BytesOfPrefix(a: string, b: string)
    requires a <= b
    ensures Bytes(a) <= Bytes(b)
  {
    BytesConcat(a, b[|a|..]);
    assert a + b[|a|..] == b;
  }

  // unicode.IsSpace
  predicate IsSpace(c: char) {
    var v := c as int;
    || 0x9 <= v <= 0xd || v == 0x20 || v == 0x85 || v == 0xa0 || v == 0x1680
    || 0x2000 <= v <= 0x200a || v == 0x2028 || v == 0x2029 || v == 0x202f || v == 0x205f || v == 0x3000
  }

  predicate AllSpace(s: string) {
    forall c :: c in s ==> IsSpace(c)
  }

  // Carriage returns, alone or before a line feed, become line feeds.
  function NormalizeLineEndings(s: string): string {
    if s == "" then ""
    else if s[0] == '\r' then
      "\n" + NormalizeLineEndings(if |s| > 1 && s[1] == '\n' then s[2..] else s[1..])
    else [s[0]] + NormalizeLineEndings(s[1..])
  }

  // A line ending of either kind becomes a line feed, other characters stay, and
  // only a cut between the two halves of a line ending changes what parts become.
  lemma LineEndingsAreExact(a: string, b: string, c: char)
    ensures NormalizeLineEndings("\r") == NormalizeLineEndings("\r\n") == "\n"
    ensures c != '\r' ==> NormalizeLineEndings([c]) == [c]
    ensures !(a != "" && a[|a| - 1] == '\r' && b != "" && b[0] == '\n') ==>
              NormalizeLineEndings(a + b) == NormalizeLineEndings(a) + NormalizeLineEndings(b)
  {
    assert "\r"[1..] == "\r\n"[2..] == [c][1..] == "";
    if !(a != "" && a[|a| - 1] == '\r' && b != "" && b[0] == '\n') {
      PartsAreNormalized(a, b);
    }
  }

  lemma {:induction false} PartsAreNormalized(a: string, b: string)
    requires !(a != "" && a[|a| - 1] == '\r' && b != "" && b[0] == '\n')
    ensures NormalizeLineEndings(a + b) == NormalizeLineEndings(a) + NormalizeLineEndings(b)
    decreases |a|
  {
    if a == "" {
      assert a + b == b;
    } else {
      var n := if a[0] == '\r' && |a| > 1 && a[1] == '\n' then 2 else 1;
      assert (a + b)[n..] == a[n..] + b;
      PartsAreNormalized(a[n..], b);
    }
  }

  function TrimLeftBlanks(s: string): string {
    if s != "" && s[0] in " \t" then TrimLeftBlanks(s[1..]) else s
  }
}
