// The byte limit of the plain-text writer against the unlimited writer.
module PlainTextBudget {
  import opened Texts
  import opened PlainTextOutput

  // `w'` has kept what `w` had written, and everything if `w` had failed.
  ghost predicate Extends(m: Mode, w: Writer, w': Writer) {
    && w.out <= w'.out
    && (w.failed ==> w'.failed && w'.out == w.out)
    && (m.limit <= 0 ==> w'.failed == w.failed)
  }

  // The limited writer `l` and the unlimited writer `u` after the same steps.
  ghost predicate Tracks(limit: int, l: Writer, u: Writer) {
    && !u.failed
    && (!l.failed ==> l == u)
    && (l.failed ==> l.out <= u.out && Bytes(u.out) > limit)
    && Bytes(l.out) <= limit
  }

  // If the limited writer had failed before both writers took a step, then the
  // step keeps them on track.
  lemma FailedTracks(limit: int, l: Writer, u: Writer, l': Writer, u': Writer, legacy: bool)
    requires limit > 0 && Tracks(limit, l, u) && l.failed
    requires Extends(Mode(limit, legacy), l, l') && Extends(Mode(0, legacy), u, u')
    ensures Tracks(limit, l', u')
  {
    BytesOfPrefix(u.out, u'.out);
  }

  lemma AppendTracks(limit: int, legacy: bool, l: Writer, u: Writer, s: string)
    requires limit > 0 && Tracks(limit, l, u)
    ensures Tracks(limit, Append(Mode(limit, legacy), l, s), Append(Mode(0, legacy), u, s))
  {
    BytesConcat(u.out, s);
  }

  lemma {:induction false} BreaksExtend(m: Mode, w: Writer, n: nat)
    ensures Extends(m, w, AppendBreaks(m, w, n))
    decreases n
  {
    if n > 0 {
      BreaksExtend(m, Append(m, w, "\n"), n - 1);
    }
  }

  lemma {:induction false} BreaksTrack(limit: int, legacy: bool, l: Writer, u: Writer, n: nat)
    requires limit > 0 && Tracks(limit, l, u)
    ensures Tracks(limit, AppendBreaks(Mode(limit, legacy), l, n), AppendBreaks(Mode(0, legacy), u, n))
    decreases n
  {
    if n > 0 {
      AppendTracks(limit, legacy, l, u, "\n");
      BreaksTrack(limit, legacy, Append(Mode(limit, legacy), l, "\n"), Append(Mode(0, legacy), u, "\n"), n - 1);
    }
  }

  lemma FlushExtends(m: Mode, w: Writer)
    ensures Extends(m, w, Flush(m, w))
  {
    var existing := Existing(m, w.out);
    BreaksExtend(m, w, if w.breaks > existing then w.breaks - existing else 0);
  }

  lemma FlushTracks(limit: int, legacy: bool, l: Writer, u: Writer)
    requires limit > 0 && Tracks(limit, l, u)
    ensures Tracks(limit, Flush(Mode(limit, legacy), l), Flush(Mode(0, legacy), u))
  {
    var m, m0 := Mode(limit, legacy), Mode(0, legacy);
    if l.failed {
      FlushExtends(m, l);
      FlushExtends(m0, u);
      FailedTracks(limit, l, u, Flush(m, l), Flush(m0, u), legacy);
    } else {
      var existing := Existing(m, l.out);
      BreaksTrack(limit, legacy, l, u, if l.breaks > existing then l.breaks - existing else 0);
    }
  }

  lemma PutCharExtends(m: Mode, w: Writer, c: char)
    ensures Extends(m, w, PutChar(m, w, c))
  {
    FlushExtends(m, w);
  }

  lemma PutCharTracks(limit: int, legacy: bool, l: Writer, u: Writer, c: char)
    requires limit > 0 && Tracks(limit, l, u)
    ensures Tracks(limit, PutChar(Mode(limit, legacy), l, c), PutChar(Mode(0, legacy), u, c))
  {
    var m, m0 := Mode(limit, legacy), Mode(0, legacy);
    if l.failed {
      PutCharExtends(m, l, c);
      PutCharExtends(m0, u, c);
      FailedTracks(limit, l, u, PutChar(m, l, c), PutChar(m0, u, c), legacy);
    } else if !IsSpace(c) {
      FlushTracks(limit, legacy, l, u);
      SpaceTracks(limit, legacy, Flush(m, l), Flush(m0, u));
      AppendTracks(limit, legacy, PutSpace(m, Flush(m, l)).(space := false),
                   PutSpace(m0, Flush(m0, u)).(space := false), [c]);
    }
  }

  lemma SpaceTracks(limit: int, legacy: bool, l: Writer, u: Writer)
    requires limit > 0 && Tracks(limit, l, u)
    ensures Tracks(limit, PutSpace(Mode(limit, legacy), l), PutSpace(Mode(0, legacy), u))
  {
    if l.failed {
      FailedTracks(limit, l, u, PutSpace(Mode(limit, legacy), l), PutSpace(Mode(0, legacy), u), legacy);
    } else {
      AppendTracks(limit, legacy, l, u, " ");
    }
  }

  lemma {:induction false} PutProseExtends(m: Mode, w: Writer, s: string)
    ensures Extends(m, w, PutProse(m, w, s))
    decreases s
  {
    if s != "" && !w.failed {
      PutCharExtends(m, w, s[0]);
      PutProseExtends(m, PutChar(m, w, s[0]), s[1..]);
    }
  }

  lemma {:induction false} PutProseTracks(limit: int, legacy: bool, l: Writer, u: Writer, s: string)
    requires limit > 0 && Tracks(limit, l, u)
    ensures Tracks(limit, PutProse(Mode(limit, legacy), l, s), PutProse(Mode(0, legacy), u, s))
    decreases s
  {
    var m, m0 := Mode(limit, legacy), Mode(0, legacy);
    if l.failed {
      PutProseExtends(m0, u, s);
      FailedTracks(limit, l, u, PutProse(m, l, s), PutProse(m0, u, s), legacy);
    } else if s != "" {
      PutCharTracks(limit, legacy, l, u, s[0]);
      PutProseTracks(limit, legacy, PutChar(m, l, s[0]), PutChar(m0, u, s[0]), s[1..]);
    }
  }

  lemma PutPreservedTracks(limit: int, legacy: bool, w: Writer, token: Token)
    requires limit > 0 && !w.failed && Bytes(w.out) <= limit
    ensures Tracks(limit, PutPreserved(Mode(limit, legacy), w, token), PutPreserved(Mode(0, legacy), w, token))
  {
    var m, m0 := Mode(limit, legacy), Mode(0, legacy);
    var value := NormalizeLineEndings(token.text);
    var due := SpaceDue(w) && (token.raw || !token.block);
    AppendTracks(limit, legacy, w, w, " ");
    var l, u := if due then Append(m, w, " ") else w, if due then Append(m0, w, " ") else w;
    FlushTracks(limit, legacy, l, u);
    AppendTracks(limit, legacy, Flush(m, l).(space := false), Flush(m0, u).(space := false),
                 if token.raw && SpaceDue(w) then TrimLeftBlanks(value) else value);
  }

  lemma PutPreservedExtends(m: Mode, w: Writer, token: Token)
    ensures Extends(m, w, PutPreserved(m, w, token))
  {
    var spaced := if SpaceDue(w) && (token.raw || !token.block) then Append(m, w, " ") else w;
    FlushExtends(m, spaced);
  }

  lemma PutTracks(limit: int, legacy: bool, l: Writer, u: Writer, token: Token)
    requires limit > 0 && Tracks(limit, l, u)
    ensures Tracks(limit, Put(Mode(limit, legacy), l, token), Put(Mode(0, legacy), u, token))
  {
    var m, m0 := Mode(limit, legacy), Mode(0, legacy);
    if l.failed {
      PutPreservedExtends(m0, u, token);
      PutProseExtends(m0, u, token.text);
      FailedTracks(limit, l, u, Put(m, l, token), Put(m0, u, token), legacy);
    } else {
      PutProseTracks(limit, legacy, l, u, token.text);
      PutPreservedTracks(limit, legacy, l, token);
    }
  }

  lemma {:induction false} PutAllTracks(limit: int, legacy: bool, l: Writer, u: Writer, tokens: seq<Token>)
    requires limit > 0 && Tracks(limit, l, u)
    ensures Tracks(limit, PutAll(Mode(limit, legacy), l, tokens), PutAll(Mode(0, legacy), u, tokens))
    decreases tokens
  {
    if tokens != [] {
      PutTracks(limit, legacy, l, u, tokens[0]);
      PutAllTracks(limit, legacy, Put(Mode(limit, legacy), l, tokens[0]), Put(Mode(0, legacy), u, tokens[0]),
                   tokens[1..]);
    }
  }

  // The limited output is a prefix of the unlimited one and fits the limit; the
  // writer fails exactly when the unlimited output does not fit.
  lemma LimitedOutputIsPrefix(limit: int, legacy: bool, tokens: seq<Token>)
    requires limit > 0
    ensures var l, u := PutAll(Mode(limit, legacy), EMPTY, tokens), PutAll(Mode(0, legacy), EMPTY, tokens);
      && l.out <= u.out && Bytes(l.out) <= limit
      && (l.failed <==> Bytes(u.out) > limit)
      && (!l.failed ==> l == u)
  {
    PutAllTracks(limit, legacy, EMPTY, EMPTY, tokens);
  }

  lemma PutExtends(m: Mode, w: Writer, token: Token)
    ensures Extends(m, w, Put(m, w, token))
  {
    PutPreservedExtends(m, w, token);
    PutProseExtends(m, w, token.text);
  }

  lemma {:induction false} PutAllExtends(m: Mode, w: Writer, tokens: seq<Token>)
    ensures Extends(m, w, PutAll(m, w, tokens))
    decreases tokens
  {
    hide Put;
    if tokens != [] {
      PutExtends(m, w, tokens[0]);
      PutAllExtends(m, Put(m, w, tokens[0]), tokens[1..]);
    }
  }

  lemma {:induction false} PutAllConcat(m: Mode, w: Writer, a: seq<Token>, b: seq<Token>)
    ensures PutAll(m, w, a + b) == PutAll(m, PutAll(m, w, a), b)
    decreases a
  {
    hide Put;
    if a == [] {
      assert a + b == b;
    } else {
      PutAllConcat(m, Put(m, w, a[0]), a[1..], b);
      assert (a + b)[1..] == a[1..] + b;
    }
  }

  // Without a limit the writer never fails, and more tokens mean more output.
  lemma MoreTokensMoreOutput(legacy: bool, a: seq<Token>, b: seq<Token>)
    requires a <= b
    ensures !PutAll(Mode(0, legacy), EMPTY, b).failed
    ensures PutAll(Mode(0, legacy), EMPTY, a).out <= PutAll(Mode(0, legacy), EMPTY, b).out
  {
    hide PutAll;
    var m := Mode(0, legacy);
    PutAllExtends(m, EMPTY, b);
    PutAllConcat(m, EMPTY, a, b[|a|..]);
    PutAllExtends(m, PutAll(m, EMPTY, a), b[|a|..]);
    assert a + b[|a|..] == b;
  }
}
