// What the writer makes of its tokens, independently of its pending state and
// of how prose is cut into tokens.
module PlainTextLayout {
  import opened Texts
  import opened PlainTextOutput
  import opened Sequences

  // A character of prose, a break, or preserved text with its line endings
  // normalized.
  datatype Event = Ch(c: char) | Line | Paragraph | Kept(text: string, raw: bool, block: bool)

  function Prose(text: string): seq<Event> {
    seq(|text|, i requires 0 <= i < |text| => Ch(text[i]))
  }

  function EventsOf(token: Token): seq<Event> {
    if token.blockBreak then [Paragraph]
    else if token.lineBreak then [Line]
    else if token.preserve && token.text != "" then [Kept(NormalizeLineEndings(token.text), token.raw, token.block)]
    else Prose(token.text)
  }

  function Events(tokens: seq<Token>): seq<Event> {
    if tokens == [] then [] else EventsOf(tokens[0]) + Events(tokens[1..])
  }

  // ----- the meaning of a sequence of events

  predicate Visible(e: Event) {
    e.Kept? || (e.Ch? && !IsSpace(e.c))
  }

  // What follows the last visible event.
  function Gap(es: seq<Event>): seq<Event> {
    if es == [] || Visible(es[|es| - 1]) then [] else Gap(es[..|es| - 1]) + [es[|es| - 1]]
  }

  function BreaksIn(e: Event): nat {
    match e
    case Line => 1
    case Paragraph => 2
    case _ => 0
  }

  function Newlines(gap: seq<Event>): nat {
    if gap == [] then 0 else Newlines(gap[..|gap| - 1]) + BreaksIn(gap[|gap| - 1])
  }

  // The line breaks, at most two, that the output already ends in.
  function TrailingBreaks(legacy: bool, out: string): nat {
    if legacy || out == "" || out[|out| - 1] != '\n' then 0
    else if |out| == 1 || out[|out| - 2] != '\n' then 1
    else 2
  }

  // After a gap with breaks there are as many line breaks, at most two, as the
  // output does not end in already; after one with white space only there is
  // one space, but none in front of preformatted text.
  function Separator(legacy: bool, out: string, gap: seq<Event>, spaced: bool): string {
    if out == "" then ""
    else if Newlines(gap) > 0 then
      var due := if Newlines(gap) > 2 then 2 else Newlines(gap);
      var missing := if due > TrailingBreaks(legacy, out) then due - TrailingBreaks(legacy, out) else 0;
      if missing == 2 then "\n\n" else if missing == 1 then "\n" else ""
    else if gap != [] && spaced then " "
    else ""
  }

  // Preserved text is written as it is; a marker of the renderer that follows
  // white space on its line loses its own.
  function Shown(out: string, gap: seq<Event>, e: Event): string
    requires Visible(e)
  {
    match e
    case Ch(c) => [c]
    case Kept(text, raw, _) =>
      if raw && out != "" && gap != [] && Newlines(gap) == 0 then TrimLeftBlanks(text) else text
  }

  function Layout(legacy: bool, es: seq<Event>): string {
    if es == [] then ""
    else
      var out, gap, last := Layout(legacy, es[..|es| - 1]), Gap(es[..|es| - 1]), es[|es| - 1];
      if !Visible(last) then out
      else out + Separator(legacy, out, gap, last.Ch? || last.raw || !last.block) + Shown(out, gap, last)
  }

  // ----- the writer follows the meaning

  predicate Reached(legacy: bool, w: Writer, es: seq<Event>) {
    && !w.failed
    && w.out == Layout(legacy, es)
    && (w.out == "" ==> w.breaks == 0 && !w.space)
    && (w.out != "" ==> w.breaks == if Newlines(Gap(es)) >= 2 then 2 else Newlines(Gap(es)))
    && (w.out != "" ==> (w.space <==> w.breaks == 0 && Gap(es) != []))
  }

  lemma StepEvent(legacy: bool, es: seq<Event>, e: Event)
    ensures (es + [e])[..|es + [e]| - 1] == es && (es + [e])[|es + [e]| - 1] == e
    ensures !Visible(e) ==> Gap(es + [e]) == Gap(es) + [e] && Layout(legacy, es + [e]) == Layout(legacy, es)
    ensures Visible(e) ==>
              && Gap(es + [e]) == []
              && Layout(legacy, es + [e])
                 == Layout(legacy, es)
                    + Separator(legacy, Layout(legacy, es), Gap(es), e.Ch? || e.raw || !e.block)
                    + Shown(Layout(legacy, es), Gap(es), e)
    ensures Newlines(Gap(es) + [e]) == Newlines(Gap(es)) + BreaksIn(e)
  {
    assert (es + [e])[..|es + [e]| - 1] == es;
    assert (Gap(es) + [e])[..|Gap(es) + [e]| - 1] == Gap(es);
  }

  lemma FlushWrites(legacy: bool, w: Writer)
    requires !w.failed && w.breaks <= 2
    ensures
      var existing := TrailingBreaks(legacy, w.out);
      var missing := if w.breaks > existing then w.breaks - existing else 0;
      Flush(Mode(0, legacy), w)
      == w.(breaks := 0, out := w.out + if missing == 2 then "\n\n" else if missing == 1 then "\n" else "")
  {
    var m := Mode(0, legacy);
    assert Existing(m, w.out) == TrailingBreaks(legacy, w.out);
    assert AppendBreaks(m, w, 0) == w;
    var one := Append(m, w, "\n");
    assert AppendBreaks(m, w, 1) == AppendBreaks(m, one, 0);
    assert AppendBreaks(m, w, 2) == AppendBreaks(m, one, 1);
    var two := Append(m, one, "\n");
    assert AppendBreaks(m, one, 1) == AppendBreaks(m, two, 0);
    assert (w.out + "\n") + "\n" == w.out + "\n\n";
  }

  lemma FlushSeparates(legacy: bool, w: Writer, es: seq<Event>)
    requires Reached(legacy, w, es) && !w.space
    ensures forall spaced ::
              Flush(Mode(0, legacy), w) == w.(breaks := 0, out := w.out + Separator(legacy, w.out, Gap(es), spaced))
  {
    hide Layout, Gap, TrailingBreaks, Flush;
    FlushWrites(legacy, w);
  }

  lemma PutCharReaches(legacy: bool, w: Writer, es: seq<Event>, c: char)
    requires Reached(legacy, w, es)
    ensures Reached(legacy, PutChar(Mode(0, legacy), w, c), es + [Ch(c)])
  {
    hide Layout, Gap, TrailingBreaks, Flush;
    var m := Mode(0, legacy);
    StepEvent(legacy, es, Ch(c));
    if !IsSpace(c) {
      FlushWrites(legacy, w);
      if !w.space {
        FlushSeparates(legacy, w, es);
      } else {
        assert w.out + "" == w.out;
      }
      assert PutChar(m, w, c).out == PutSpace(m, Flush(m, w)).out + [c];
    }
  }

  lemma {:induction false} PutProseReaches(legacy: bool, w: Writer, es: seq<Event>, s: string)
    requires Reached(legacy, w, es)
    ensures Reached(legacy, PutProse(Mode(0, legacy), w, s), es + Prose(s))
    decreases s
  {
    hide Layout, Gap, PutChar;
    if s == "" {
      assert es + Prose(s) == es;
    } else {
      PutCharReaches(legacy, w, es, s[0]);
      PutProseReaches(legacy, PutChar(Mode(0, legacy), w, s[0]), es + [Ch(s[0])], s[1..]);
      assert Prose(s) == [Ch(s[0])] + Prose(s[1..]);
      Associate(es, [Ch(s[0])], Prose(s[1..]));
    }
  }

  lemma PutPreservedReaches(legacy: bool, w: Writer, es: seq<Event>, token: Token)
    requires Reached(legacy, w, es) && token.text != ""
    ensures Reached(legacy, PutPreserved(Mode(0, legacy), w, token),
                    es + [Kept(NormalizeLineEndings(token.text), token.raw, token.block)])
  {
    hide Layout, Gap, TrailingBreaks, Flush, TrimLeftBlanks, NormalizeLineEndings;
    var m, e := Mode(0, legacy), Kept(NormalizeLineEndings(token.text), token.raw, token.block);
    StepEvent(legacy, es, e);
    NormalizedIsSomething(token.text);
    if SpaceDue(w) {
      var spaced := if token.raw || !token.block then Append(m, w, " ") else w;
      FlushWrites(legacy, spaced);
      assert spaced.out + "" == spaced.out;
    } else {
      FlushSeparates(legacy, w, es);
    }
  }

  lemma NormalizedIsSomething(s: string)
    requires s != ""
    ensures NormalizeLineEndings(s) != ""
  {
  }

  lemma PutReaches(legacy: bool, w: Writer, es: seq<Event>, token: Token)
    requires Reached(legacy, w, es)
    ensures Reached(legacy, Put(Mode(0, legacy), w, token), es + EventsOf(token))
  {
    hide Layout, Gap, PutProse, PutPreserved, NormalizeLineEndings;
    if token.blockBreak {
      StepEvent(legacy, es, Paragraph);
    } else if token.lineBreak {
      StepEvent(legacy, es, Line);
    } else if token.text == "" {
      assert EventsOf(token) == [] && es + [] == es;
    } else if token.preserve {
      PutPreservedReaches(legacy, w, es, token);
    } else {
      PutProseReaches(legacy, w, es, token.text);
    }
  }

  lemma {:induction false} PutAllReaches(legacy: bool, w: Writer, es: seq<Event>, tokens: seq<Token>)
    requires Reached(legacy, w, es)
    ensures Reached(legacy, PutAll(Mode(0, legacy), w, tokens), es + Events(tokens))
    decreases tokens
  {
    hide Reached, Put, EventsOf;
    if tokens == [] {
      assert es + [] == es;
    } else {
      PutReaches(legacy, w, es, tokens[0]);
      PutAllReaches(legacy, Put(Mode(0, legacy), w, tokens[0]), es + EventsOf(tokens[0]), tokens[1..]);
      Associate(es, EventsOf(tokens[0]), Events(tokens[1..]));
    }
  }

  // The writer's output depends only on the events, not on the tokens that
  // carried them, and is their layout.
  lemma OutputIsLaidOut(legacy: bool, tokens: seq<Token>)
    ensures PutAll(Mode(0, legacy), EMPTY, tokens).out == Layout(legacy, Events(tokens))
    ensures !PutAll(Mode(0, legacy), EMPTY, tokens).failed
  {
    PutAllReaches(legacy, EMPTY, [], tokens);
    assert [] + Events(tokens) == Events(tokens);
  }

  lemma ChunkingDoesNotMatter(legacy: bool, a: seq<Token>, b: seq<Token>)
    requires Events(a) == Events(b)
    ensures PutAll(Mode(0, legacy), EMPTY, a).out == PutAll(Mode(0, legacy), EMPTY, b).out
  {
    OutputIsLaidOut(legacy, a);
    OutputIsLaidOut(legacy, b);
  }

  // ----- what a layout looks like

  function NonSpace(s: string): string {
    if s == "" then "" else (if IsSpace(s[0]) then "" else [s[0]]) + NonSpace(s[1..])
  }

  // The characters of the visible events, but for white space.
  function VisibleChars(es: seq<Event>): string {
    if es == [] then ""
    else
      var last := es[|es| - 1];
      VisibleChars(es[..|es| - 1])
      + match last
        case Ch(c) => NonSpace([c])
        case Kept(text, _, _) => NonSpace(text)
        case _ => ""
  }

  lemma {:induction false} NonSpaceConcat(a: string, b: string)
    ensures NonSpace(a + b) == NonSpace(a) + NonSpace(b)
  {
    if a == "" {
      assert a + b == b;
    } else {
      NonSpaceConcat(a[1..], b);
      assert (a + b)[1..] == a[1..] + b;
      Associate(if IsSpace(a[0]) then "" else [a[0]], NonSpace(a[1..]), NonSpace(b));
    }
  }

  lemma {:induction false} SpaceIsNothing(s: string)
    requires AllSpace(s)
    ensures NonSpace(s) == ""
  {
    if s != "" {
      assert s[0] in s && AllSpace(s[1..]);
      SpaceIsNothing(s[1..]);
    }
  }

  lemma {:induction false} BlanksAreSpace(s: string)
    ensures NonSpace(TrimLeftBlanks(s)) == NonSpace(s)
  {
    if s != "" && s[0] in " \t" {
      BlanksAreSpace(s[1..]);
    }
  }

  lemma SeparatorIsSpace(legacy: bool, out: string, gap: seq<Event>, spaced: bool)
    ensures AllSpace(Separator(legacy, out, gap, spaced))
  {
    hide Newlines, TrailingBreaks;
  }

  // Every visible character appears once and in order, and nothing else but
  // white space.
  lemma {:induction false} LayoutKeepsVisible(legacy: bool, es: seq<Event>)
    ensures NonSpace(Layout(legacy, es)) == VisibleChars(es)
    decreases |es|
  {
    hide NonSpace, IsSpace, Separator, Gap;
    if es == [] {
      SpaceIsNothing("");
    } else {
      var before, last := es[..|es| - 1], es[|es| - 1];
      LayoutKeepsVisible(legacy, before);
      if Visible(last) {
        var out, gap := Layout(legacy, before), Gap(before);
        var sep, shown := Separator(legacy, out, gap, last.Ch? || last.raw || !last.block), Shown(out, gap, last);
        SeparatorIsSpace(legacy, out, gap, last.Ch? || last.raw || !last.block);
        SpaceIsNothing(sep);
        NonSpaceConcat(out, sep);
        NonSpaceConcat(out + sep, shown);
        if last.Kept? {
          BlanksAreSpace(last.text);
        }
        assert NonSpace(out) + "" == NonSpace(out);
      } else if last.Ch? {
        SpaceIsNothing([last.c]);
      }
    }
  }

  // A layout of prose alone neither starts nor ends with white space.
  lemma {:induction false} ProseHasNoEdges(legacy: bool, es: seq<Event>)
    requires forall e :: e in es ==> !e.Kept?
    ensures
      var out := Layout(legacy, es);
      out != "" ==> !IsSpace(out[0]) && !IsSpace(out[|out| - 1])
    decreases |es|
  {
    hide IsSpace, Newlines, TrailingBreaks, Gap;
    if es != [] {
      assert es[|es| - 1] in es;
      ProseHasNoEdges(legacy, es[..|es| - 1]);
    }
  }

  // ----- preserved text

  lemma {:induction false} LayoutGrows(legacy: bool, es: seq<Event>, more: seq<Event>)
    ensures Layout(legacy, es) <= Layout(legacy, es + more)
    decreases |more|
  {
    if more == [] {
      assert es + more == es;
    } else {
      LayoutGrows(legacy, es, more[..|more| - 1]);
      assert (es + more)[..|es + more| - 1] == es + more[..|more| - 1];
    }
  }

  lemma {:induction false} EventsConcat(a: seq<Token>, b: seq<Token>)
    ensures Events(a + b) == Events(a) + Events(b)
  {
    hide EventsOf;
    if a == [] {
      assert a + b == b;
    } else {
      EventsConcat(a[1..], b);
      assert (a + b)[1..] == a[1..] + b;
      Associate(EventsOf(a[0]), Events(a[1..]), Events(b));
    }
  }

  lemma KeptIsLaidOut(legacy: bool, es: seq<Event>, e: Event, more: seq<Event>)
    returns (before: string, shown: string, after: string)
    requires e.Kept?
    ensures Layout(legacy, (es + [e]) + more) == before + shown + after
    ensures shown == e.text || (e.raw && shown == TrimLeftBlanks(e.text))
  {
    hide Layout, Separator, Gap, Newlines;
    StepEvent(legacy, es, e);
    LayoutGrows(legacy, es + [e], more);
    var out, all := Layout(legacy, es), Layout(legacy, (es + [e]) + more);
    before := out + Separator(legacy, out, Gap(es), e.raw || !e.block);
    shown := Shown(out, Gap(es), e);
    after := all[|before + shown|..];
  }

  // Preserved text is in the output as it is, with its indentation and line
  // breaks; only a marker of the renderer may lose blanks in front.
  lemma PreservedTextIsVerbatim(legacy: bool, a: seq<Token>, token: Token, b: seq<Token>)
    requires token.preserve && token.text != "" && !token.lineBreak && !token.blockBreak
    ensures
      var text := NormalizeLineEndings(token.text);
      exists before, shown, after ::
        && PutAll(Mode(0, legacy), EMPTY, a + [token] + b).out == before + shown + after
        && (shown == text || (token.raw && shown == TrimLeftBlanks(text)))
  {
    hide Layout, NormalizeLineEndings, TrimLeftBlanks, PutAll;
    var e := Kept(NormalizeLineEndings(token.text), token.raw, token.block);
    OutputIsLaidOut(legacy, a + [token] + b);
    EventsConcat(a + [token], b);
    EventsConcat(a, [token]);
    assert [token][1..] == [] && [e] + [] == [e];
    var before, shown, after := KeptIsLaidOut(legacy, Events(a), e, Events(b));
    assert PutAll(Mode(0, legacy), EMPTY, a + [token] + b).out == before + shown + after;
  }
}
