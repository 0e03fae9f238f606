// What the writer keeps of the tokens it is given: everything but white space.
module PlainTextContent {
  import opened PlainTextLayout
  import opened PlainTextOutput
  import opened Sequences
  import opened Texts

  function TokenText(token: Token): string {
    if token.lineBreak || token.blockBreak then "" else NonSpace(token.text)
  }

  function TokensText(tokens: seq<Token>): string {
    if tokens == [] then "" else TokenText(tokens[0]) + TokensText(tokens[1..])
  }

  lemma {:induction false} LineEndingsAreSpace(s: string)
    ensures NonSpace(NormalizeLineEndings(s)) == NonSpace(s)
    decreases |s|
  {
    if s != "" {
      if s[0] == '\r' {
        var rest := if |s| > 1 && s[1] == '\n' then s[2..] else s[1..];
        LineEndingsAreSpace(rest);
        NonSpaceConcat("\n", NormalizeLineEndings(rest));
        SpaceIsNothing("\n");
        if |s| > 1 && s[1] == '\n' {
          assert s[1..][1..] == s[2..];
        }
      } else {
        LineEndingsAreSpace(s[1..]);
        NonSpaceConcat([s[0]], NormalizeLineEndings(s[1..]));
        assert [s[0]] + s[1..] == s;
        NonSpaceConcat([s[0]], s[1..]);
      }
    }
  }

  // Appending without failing.
  lemma AppendKeeps(m: Mode, w: Writer, s: string)
    ensures w.failed ==> Append(m, w, s).failed
    ensures !Append(m, w, s).failed ==> NonSpace(Append(m, w, s).out) == NonSpace(w.out) + NonSpace(s)
  {
    NonSpaceConcat(w.out, s);
  }

  lemma {:induction false} BreaksKeep(m: Mode, w: Writer, n: nat)
    ensures w.failed ==> AppendBreaks(m, w, n).failed
    ensures !AppendBreaks(m, w, n).failed ==> NonSpace(AppendBreaks(m, w, n).out) == NonSpace(w.out)
    decreases n
  {
    if n > 0 {
      AppendKeeps(m, w, "\n");
      SpaceIsNothing("\n");
      BreaksKeep(m, Append(m, w, "\n"), n - 1);
    }
  }

  lemma FlushKeeps(m: Mode, w: Writer)
    ensures w.failed ==> Flush(m, w).failed
    ensures !Flush(m, w).failed ==> NonSpace(Flush(m, w).out) == NonSpace(w.out)
  {
    var existing := Existing(m, w.out);
    BreaksKeep(m, w, if w.breaks > existing then w.breaks - existing else 0);
  }

  lemma PutCharKeeps(m: Mode, w: Writer, c: char)
    ensures w.failed ==> PutChar(m, w, c).failed
    ensures !PutChar(m, w, c).failed ==> NonSpace(PutChar(m, w, c).out) == NonSpace(w.out) + NonSpace([c])
  {
    if IsSpace(c) {
      SpaceIsNothing([c]);
    } else {
      var flushed := Flush(m, w);
      FlushKeeps(m, w);
      AppendKeeps(m, flushed, " ");
      SpaceIsNothing(" ");
      AppendKeeps(m, PutSpace(m, flushed).(space := false), [c]);
    }
  }

  lemma {:induction false} PutProseKeeps(m: Mode, w: Writer, s: string)
    ensures w.failed ==> PutProse(m, w, s).failed
    ensures !PutProse(m, w, s).failed ==> NonSpace(PutProse(m, w, s).out) == NonSpace(w.out) + NonSpace(s)
    decreases s
  {
    if s != "" && !w.failed {
      var next := PutChar(m, w, s[0]);
      PutCharKeeps(m, w, s[0]);
      PutProseKeeps(m, next, s[1..]);
      assert s == [s[0]] + s[1..];
      NonSpaceConcat([s[0]], s[1..]);
      Associate(NonSpace(w.out), NonSpace([s[0]]), NonSpace(s[1..]));
    }
  }

  lemma PutPreservedKeeps(m: Mode, w: Writer, token: Token)
    ensures w.failed ==> PutPreserved(m, w, token).failed
    ensures !PutPreserved(m, w, token).failed ==>
              NonSpace(PutPreserved(m, w, token).out) == NonSpace(w.out) + NonSpace(token.text)
  {
    var value := NormalizeLineEndings(token.text);
    var spaced := if SpaceDue(w) && (token.raw || !token.block) then Append(m, w, " ") else w;
    var flushed := Flush(m, spaced).(space := false);
    AppendKeeps(m, w, " ");
    SpaceIsNothing(" ");
    FlushKeeps(m, spaced);
    LineEndingsAreSpace(token.text);
    BlanksAreSpace(value);
    AppendKeeps(m, flushed, if token.raw && SpaceDue(w) then TrimLeftBlanks(value) else value);
  }

  lemma PutKeeps(m: Mode, w: Writer, token: Token)
    ensures w.failed ==> Put(m, w, token).failed
    ensures !Put(m, w, token).failed ==> NonSpace(Put(m, w, token).out) == NonSpace(w.out) + TokenText(token)
  {
    hide PutPreserved, PutProse, NonSpace;
    SpaceIsNothing("");
    PutPreservedKeeps(m, w, token);
    PutProseKeeps(m, w, token.text);
  }

  // A writer that has not failed, limited or not, has written every character
  // of every token but white space, in order, and nothing else.
  lemma {:induction false} OutputHasEveryToken(m: Mode, w: Writer, tokens: seq<Token>)
    ensures w.failed ==> PutAll(m, w, tokens).failed
    ensures !PutAll(m, w, tokens).failed ==> NonSpace(PutAll(m, w, tokens).out) == NonSpace(w.out) + TokensText(tokens)
    decreases tokens
  {
    hide Put, NonSpace, TokenText;
    if tokens != [] {
      PutKeeps(m, w, tokens[0]);
      OutputHasEveryToken(m, Put(m, w, tokens[0]), tokens[1..]);
      Associate(NonSpace(w.out), TokenText(tokens[0]), TokensText(tokens[1..]));
    }
  }

  // ----- the document's own text among the tokens

  // The characters that rendering never adds, drops or changes: all but white
  // space, and but the bar and backslash of table cells.
  predicate IsLetter(c: char) {
    !IsSpace(c) && c != '|' && c != '\\'
  }

  function Letters(s: string): string {
    if s == "" then "" else (if IsLetter(s[0]) then [s[0]] else "") + Letters(s[1..])
  }

  lemma NothingSaid(said: string)
    ensures said + Letters("") == said
  {
  }

  lemma {:induction false} LettersConcat(a: string, b: string)
    ensures Letters(a + b) == Letters(a) + Letters(b)
  {
    if a == "" {
      assert a + b == b;
    } else {
      LettersConcat(a[1..], b);
      assert (a + b)[1..] == a[1..] + b;
      Associate(if IsLetter(a[0]) then [a[0]] else "", Letters(a[1..]), Letters(b));
    }
  }

  lemma {:induction false} LettersOfNonSpace(s: string)
    ensures Letters(NonSpace(s)) == Letters(s)
  {
    if s != "" {
      var rest := NonSpace(s[1..]);
      LettersOfNonSpace(s[1..]);
      if IsSpace(s[0]) {
        assert "" + rest == rest;
      } else {
        assert ([s[0]] + rest)[1..] == rest;
      }
    }
  }

  // A raw token is a marker of the renderer; any other carries document text.
  function SaidBy(token: Token): string {
    if token.raw then "" else Letters(TokenText(token))
  }

  function Said(tokens: seq<Token>): string {
    if tokens == [] then "" else SaidBy(tokens[0]) + Said(tokens[1..])
  }

  lemma {:induction false} SaidSnoc(tokens: seq<Token>, token: Token)
    ensures Said(tokens + [token]) == Said(tokens) + SaidBy(token)
  {
    if tokens == [] {
      assert tokens + [token] == [token];
      assert [token][1..] == [];
    } else {
      SaidSnoc(tokens[1..], token);
      assert (tokens + [token])[1..] == tokens[1..] + [token];
      Associate(SaidBy(tokens[0]), Said(tokens[1..]), SaidBy(token));
    }
  }

  lemma {:induction false} SaidIsWritten(tokens: seq<Token>)
    ensures Subsequence(Said(tokens), Letters(TokensText(tokens)))
  {
    hide TokenText;
    if tokens != [] {
      var token, rest := tokens[0], tokens[1..];
      SaidIsWritten(rest);
      LettersConcat(TokenText(token), TokensText(rest));
      SubsequenceSelf(Letters(TokenText(token)));
      if token.raw {
        assert "" + Said(rest) == Said(rest);
        SubsequenceSkip(Said(rest), Letters(TokenText(token)), Letters(TokensText(rest)));
      } else {
        SubsequenceConcat(SaidBy(token), Letters(TokenText(token)), Said(rest), Letters(TokensText(rest)));
      }
    }
  }
}
