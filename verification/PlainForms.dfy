// How simple documents are written out: blocks, line breaks, rules, and
// preformatted text and code, for all texts.
module PlainForms {
  import opened Html
  import opened PlainTextLayout
  import opened PlainTextOutput
  import opened PlainTextRenderer
  import opened PlainTextRendering
  import opened SanitizeSpec
  import opened Sequences
  import opened Texts
  import opened Wrappers

  // ----- documents

  function TextNode(n: Node, text: string): Tree {
    Tree(n, Text, text, "", [], [])
  }

  function ElementNode(n: Node, name: string, kids: Forest): Tree {
    Tree(n, Element, name, "", [], kids)
  }

  // One element of the kind for each text, with that text.
  function Each(n: Node, name: string, texts: seq<string>): Forest {
    if texts == [] then [] else [ElementNode(n, name, [TextNode(n, texts[0])])] + Each(n, name, texts[1..])
  }

  // The names that the forms below use are in lower case.
  ghost predicate KnowsNames(p: Policy) {
    forall name :: name in {"br", "hr", "ul", "ol", "li", "table", "tr", "td", "pre", "code"} ==> p.lower(name) == name
  }

  // A text on one line, with single spaces between its words.
  predicate IsLine(text: string) {
    && text != "" && !IsSpace(text[0])
    && forall i :: 0 <= i < |text| && IsSpace(text[i]) ==> text[i] == ' ' && i + 1 < |text| && !IsSpace(text[i + 1])
  }

  ghost predicate AreLines(texts: seq<string>) {
    forall i :: 0 <= i < |texts| ==> IsLine(texts[i])
  }

  function Joined(texts: seq<string>, separator: string): string {
    if texts == [] then "" else if |texts| == 1 then texts[0] else texts[0] + separator + Joined(texts[1..], separator)
  }

  // ----- writing one line

  // The rest of a line, at the end of which no space is left over.
  predicate IsRest(text: string) {
    forall i :: 0 <= i < |text| && IsSpace(text[i]) ==> text[i] == ' ' && i + 1 < |text| && !IsSpace(text[i + 1])
  }

  // Nothing, or one space, since the last visible character.
  ghost predicate Near(es: seq<Event>) {
    Gap(es) == [] || Gap(es) == [Ch(' ')]
  }

  function Space(es: seq<Event>): string {
    if Gap(es) == [] then "" else " "
  }

  lemma CharacterIsLaidOut(legacy: bool, es: seq<Event>, c: char)
    requires Layout(legacy, es) != "" && Near(es) && !IsSpace(c)
    ensures Layout(legacy, es + [Ch(c)]) == Layout(legacy, es) + Space(es) + [c] && Gap(es + [Ch(c)]) == []
  {
    StepEvent(legacy, es, Ch(c));
    hide Layout, Gap, TrailingBreaks;
    assert [Ch(' ')][..0] == [];
  }

  lemma SpaceIsLaidOut(legacy: bool, es: seq<Event>)
    requires Gap(es) == []
    ensures Layout(legacy, es + [Ch(' ')]) == Layout(legacy, es) && Gap(es + [Ch(' ')]) == [Ch(' ')]
  {
    StepEvent(legacy, es, Ch(' '));
  }

  lemma RestOfRest(text: string)
    requires IsRest(text) && text != ""
    ensures IsRest(text[1..])
    ensures IsSpace(text[0]) ==> text[0] == ' ' && text[1..] != "" && !IsSpace(text[1..][0])
  {
    hide IsSpace;
    assert forall i :: 0 <= i < |text[1..]| ==> text[1..][i] == text[i + 1];
  }

  lemma {:induction false} RestIsLaidOut(legacy: bool, es: seq<Event>, text: string)
    requires Layout(legacy, es) != "" && IsRest(text) && Near(es)
    requires Gap(es) != [] ==> text != "" && !IsSpace(text[0])
    ensures Layout(legacy, es + Prose(text)) == Layout(legacy, es) + Space(es) + text
    ensures Gap(es + Prose(text)) == []
    decreases text
  {
    hide Layout, Gap, IsSpace, IsRest;
    if text == "" {
      assert es + Prose(text) == es;
    } else {
      var rest := text[1..];
      assert Prose(text) == [Ch(text[0])] + Prose(rest);
      Associate(es, [Ch(text[0])], Prose(rest));
      RestOfRest(text);
      if IsSpace(text[0]) {
        SpaceIsLaidOut(legacy, es);
      } else {
        CharacterIsLaidOut(legacy, es, text[0]);
      }
      RestIsLaidOut(legacy, es + [Ch(text[0])], rest);
      assert text == [text[0]] + rest;
    }
  }

  lemma LineIsRest(text: string)
    requires IsLine(text)
    ensures text != "" && !IsSpace(text[0]) && IsRest(text[1..])
  {
    hide IsSpace;
    assert forall i :: 0 <= i < |text[1..]| ==> text[1..][i] == text[i + 1];
  }

  lemma LineIsLaidOut(legacy: bool, es: seq<Event>, text: string)
    requires IsLine(text)
    ensures Layout(legacy, es + Prose(text))
         == Layout(legacy, es) + Separator(legacy, Layout(legacy, es), Gap(es), true) + text
    ensures Gap(es + Prose(text)) == []
  {
    hide Layout, Gap, IsSpace, Separator, IsLine, IsRest;
    LineIsRest(text);
    assert Prose(text) == [Ch(text[0])] + Prose(text[1..]);
    Associate(es, [Ch(text[0])], Prose(text[1..]));
    StepEvent(legacy, es, Ch(text[0]));
    RestIsLaidOut(legacy, es + [Ch(text[0])], text[1..]);
    assert text == [text[0]] + text[1..];
  }

  // ----- tokens

  const BREAK := Token("", false, false, false, true, false)
  const PARAGRAPH := Token("", false, false, false, false, true)

  function Plain(text: string): Token {
    Token(text, false, false, false, false, false)
  }

  function Raw(text: string): Token {
    Token(text, true, false, true, false, false)
  }

  // Lines with such a token behind each.
  function LineTokens(end: Token, texts: seq<string>): seq<Token> {
    if texts == [] then [] else [Plain(texts[0]), end] + LineTokens(end, texts[1..])
  }

  // ----- single elements

  // Outside lists, tables, links and preformatted text, at the start of a line.
  predicate AtLineStart(v: View) {
    v.links == [] && v.lists == [] && v.tables == [] && v.pre == 0 && v.code == 0 && v.cell == 0 && !v.prefix
  }

  lemma TextIsPushed(s: Setting, v: View, text: string)
    requires v.links == [] && v.pre == 0 && v.code == 0 && v.cell == 0 && IsLine(text)
    ensures PushText(s, v, text) == Push(v, Plain(text)).(prefix := false)
  {
    assert text[0] in text;
    assert Extended(v.links, text) == v.links;
  }

  lemma ContainersAreKept()
    ensures forall name :: name in {"ul", "ol", "li", "table", "tr", "td", "pre", "code"} ==> !DropsPlainText(name)
  {
  }

  lemma ElementIsViewed(s: Setting, v: View, t: Tree, name: string, parent: Option<string>)
    requires t.kind == Element && s.policy.lower(t.data) == name
    requires name !in {"img", "br", "hr"} && !DropsPlainText(name)
    ensures ViewNode(s, v, t, parent) == ViewContainer(s, v, t, name)
  {
    hide ViewContainer, DropsPlainText;
    assert ViewNode(s, v, t, parent) == ViewElement(s, v, t);
  }

  // The view after the one text that an element holds.
  lemma OneTextInside(s: Setting, v: View, n: Node, t: Tree, text: string)
    requires t.kids == [TextNode(n, text)] && IsLine(text)
    requires v.links == [] && v.pre == 0 && v.code == 0 && v.cell == 0
    ensures Inside(s, v, t) == Push(v, Plain(text)).(prefix := false)
  {
    assert text[0] in text && !AllSpace(text);
    TextIsPushed(s, v, text);
    assert t.kids[0] == TextNode(n, text) && t.kids[1..] == [];
    assert ViewNode(s, v, t.kids[0], Some(t.data)) == PushText(s, v, text);
    assert ViewChildren(s, PushText(s, v, text), [], Some(t.data)) == PushText(s, v, text);
  }

  // ----- where the output stands

  // The output so far, and what has come since its last visible character:
  // nothing, a line break or a paragraph break, where only an output that does
  // not end in a line break counts.
  ghost predicate Stands(legacy: bool, es: seq<Event>, out: string, gap: seq<Event>) {
    && Layout(legacy, es) == out && (out != "" ==> Gap(es) == gap && out[|out| - 1] != '\n')
    && gap in {[], [Line], [Paragraph]}
  }

  function Between(out: string, gap: seq<Event>): string {
    if out == "" || gap == [] then "" else if gap == [Line] then "\n" else "\n\n"
  }

  lemma SeparatorIs(legacy: bool, es: seq<Event>, out: string, gap: seq<Event>, spaced: bool)
    requires Stands(legacy, es, out, gap)
    ensures Separator(legacy, out, Gap(es), spaced) == Between(out, gap)
  {
    hide Layout, Gap;
    assert Newlines([Line]) == 1 && Newlines([Paragraph]) == 2 by {
      assert [Line][..0] == [] && [Paragraph][..0] == [];
    }
  }

  lemma LineEnds(text: string)
    requires IsLine(text)
    ensures text != "" && text[|text| - 1] != '\n' && text[0] != '\n'
  {
  }

  lemma TextStands(legacy: bool, es: seq<Event>, out: string, gap: seq<Event>, text: string)
    requires Stands(legacy, es, out, gap) && IsLine(text)
    ensures Stands(legacy, es + EventsOf(Plain(text)), out + Between(out, gap) + text, [])
  {
    hide Layout, Gap, IsLine, Separator;
    LineIsLaidOut(legacy, es, text);
    SeparatorIs(legacy, es, out, gap, true);
    LineEnds(text);
  }

  lemma BreakStands(legacy: bool, es: seq<Event>, out: string, token: Token)
    requires Stands(legacy, es, out, []) && token in {BREAK, PARAGRAPH}
    ensures Stands(legacy, es + EventsOf(token), out, EventsOf(token))
  {
    hide Layout, Gap;
    StepEvent(legacy, es, EventsOf(token)[0]);
  }

  // The marker keeps its blanks: there is no white space on the line before it.
  lemma MarkStands(legacy: bool, es: seq<Event>, out: string, gap: seq<Event>, mark: string)
    requires Stands(legacy, es, out, gap) && mark != "" && mark[|mark| - 1] != '\n' && '\r' !in mark
    ensures Stands(legacy, es + EventsOf(Raw(mark)), out + Between(out, gap) + mark, [])
  {
    hide Layout, Gap, Separator, TrimLeftBlanks;
    Unchanged(mark);
    StepEvent(legacy, es, Kept(mark, true, false));
    SeparatorIs(legacy, es, out, gap, true);
    assert Newlines([Line]) == 1 && Newlines([Paragraph]) == 2 by {
      assert [Line][..0] == [] && [Paragraph][..0] == [];
    }
  }

  lemma {:induction false} Unchanged(s: string)
    requires '\r' !in s
    ensures NormalizeLineEndings(s) == s
  {
    if s != "" {
      Unchanged(s[1..]);
    }
  }

  lemma EventsNext(es: seq<Event>, tokens: seq<Token>, rest: seq<Token>)
    ensures es + Events(tokens + rest) == (es + Events(tokens)) + Events(rest)
  {
    EventsConcat(tokens, rest);
    Associate(es, Events(tokens), Events(rest));
  }

  lemma EventsOfOne(es: seq<Event>, a: Token)
    ensures es + Events([a]) == es + EventsOf(a)
  {
    assert [a][1..] == [] && EventsOf(a) + [] == EventsOf(a);
  }

  lemma EventsOfTwo(es: seq<Event>, a: Token, b: Token)
    ensures es + Events([a, b]) == (es + EventsOf(a)) + EventsOf(b)
  {
    assert [a, b][1..] == [b] && [b][1..] == [];
    assert Events([b]) == EventsOf(b) + [];
    Associate(es, EventsOf(a), EventsOf(b));
  }

  lemma TrimmedAsItIs(out: string)
    requires out != "" ==> out[0] != '\n' && out[|out| - 1] != '\n'
    ensures TrimNewlines(out) == out
  {
  }

  lemma {:induction false} LinesStand(legacy: bool, es: seq<Event>, out: string, end: Token, texts: seq<string>)
    requires AreLines(texts) && end in {BREAK, PARAGRAPH} && Stands(legacy, es, out, EventsOf(end))
    ensures
      var gap := EventsOf(end);
      var all := out + if texts == [] then "" else Between(out, gap) + Joined(texts, Between("x", gap));
      Stands(legacy, es + Events(LineTokens(end, texts)), all, gap)
    decreases texts
  {
    hide Stands, IsLine;
    if texts == [] {
      assert es + Events([]) == es && out + "" == out;
    } else {
      var gap := EventsOf(end);
      var written := out + Between(out, gap) + texts[0];
      TextStands(legacy, es, out, gap, texts[0]);
      BreakStands(legacy, es + EventsOf(Plain(texts[0])), written, end);
      EventsOfTwo(es, Plain(texts[0]), end);
      assert AreLines(texts[1..]);
      LinesStand(legacy, es + Events([Plain(texts[0]), end]), written, end, texts[1..]);
      EventsNext(es, [Plain(texts[0]), end], LineTokens(end, texts[1..]));
      LineEnds(texts[0]);
      JoinedNext(out, Between(out, gap), texts, Between("x", gap));
    }
  }

  lemma JoinedNext(out: string, between: string, texts: seq<string>, separator: string)
    requires texts != []
    ensures
      (out + between + texts[0]) + (if texts[1..] == [] then "" else separator + Joined(texts[1..], separator))
      == out + (between + Joined(texts, separator))
  {
    if |texts| == 1 {
      assert texts[1..] == [];
    }
  }

  lemma StartStands(legacy: bool, end: Token)
    requires end in {BREAK, PARAGRAPH}
    ensures Stands(legacy, EventsOf(end), "", [Line]) && Stands(legacy, EventsOf(end), "", [Paragraph])
  {
    assert EventsOf(end)[..0] == [];
  }

  lemma StandsAt(legacy: bool, es: seq<Event>, out: string, gap: seq<Event>)
    requires Stands(legacy, es, out, gap)
    ensures Layout(legacy, es) == out
  {
  }

  lemma {:induction false} JoinedEnds(texts: seq<string>, separator: string)
    requires texts != [] && AreLines(texts)
    ensures
      var all := Joined(texts, separator);
      all != "" && all[0] != '\n' && all[|all| - 1] != '\n'
  {
    hide IsLine;
    LineEnds(texts[0]);
    if |texts| > 1 {
      assert AreLines(texts[1..]);
      JoinedEnds(texts[1..], separator);
    }
  }

  // What is written for a first token and the rest of a form.
  lemma FormIsWritten(legacy: bool, first: Token, rest: seq<Token>, out: string)
    requires Layout(legacy, EventsOf(first) + Events(rest)) == out
    requires out != "" ==> out[0] != '\n' && out[|out| - 1] != '\n'
    ensures TrimNewlines(Written(legacy, [first] + rest)) == out
  {
    hide Layout, TrimNewlines;
    OutputIsLaidOut(legacy, [first] + rest);
    EventsConcat([first], rest);
    assert [first][1..] == [] && Events([first]) == EventsOf(first) + [] == EventsOf(first);
    TrimmedAsItIs(out);
  }

  // A form that ends in one more break is written in the same way.
  lemma FormWithBreakIsWritten(legacy: bool, first: Token, rest: seq<Token>, end: seq<Token>, out: string,
                               gap: seq<Event>)
    requires Stands(legacy, EventsOf(first) + Events(rest), out, gap) && end in {[], [PARAGRAPH]}
    requires out != "" ==> out[0] != '\n' && out[|out| - 1] != '\n'
    ensures TrimNewlines(Written(legacy, [first] + (rest + end))) == out
  {
    hide Layout, TrimNewlines, Gap;
    var es := EventsOf(first) + Events(rest);
    StandsAt(legacy, es, out, gap);
    if end == [] {
      assert rest + end == rest;
    } else {
      EventsNext(EventsOf(first), rest, end);
      assert [PARAGRAPH][1..] == [] && Events([PARAGRAPH]) == [Paragraph] + [] == [Paragraph];
      StepEvent(legacy, es, Paragraph);
    }
    FormIsWritten(legacy, first, rest + end, out);
  }

  // ----- blocks

  // An element that does no more than stand apart from what surrounds it.
  predicate IsTextBlock(p: Policy, name: string) {
    p.lower(name) == name && (IsParagraph(name) || IsBlock(name)) && !DropsPlainText(name)
  }

  // The break around a block: a blank line around paragraphs and headings.
  function EndOf(s: Setting, name: string): Token {
    if IsParagraph(name) && !s.legacy then PARAGRAPH else BREAK
  }

  predicate AfterEnd(v: View, end: Token) {
    if end == PARAGRAPH then AfterParagraphBreak(v) else AfterBreak(v)
  }

  lemma BlockIsPlain(s: Setting, v: View, t: Tree, name: string)
    requires IsTextBlock(s.policy, name)
    ensures ViewContainer(s, v, t, name) == ViewPlainElement(s, v, t, name)
    ensures name !in {"img", "br", "hr"}
  {
  }

  lemma BreaksAroundText(s: Setting, v: View, name: string, text: string)
    requires IsTextBlock(s.policy, name) && !v.prefix && AfterEnd(v, EndOf(s, name))
    ensures PushElementBreak(s, v, name) == v
    ensures
      var w := Push(v, Plain(text)).(prefix := false);
      PushElementBreak(s, w, name) == v.(tokens := v.tokens + [Plain(text), EndOf(s, name)])
  {
    hide DropsPlainText, IsParagraph, IsBlock;
    var w := Push(v, Plain(text)).(prefix := false);
    assert w.tokens[|w.tokens| - 1] == Plain(text);
    assert (v.tokens + [Plain(text)]) + [EndOf(s, name)] == v.tokens + [Plain(text), EndOf(s, name)];
  }

  lemma BlockIsViewed(s: Setting, v: View, n: Node, name: string, text: string)
    requires IsTextBlock(s.policy, name) && IsLine(text) && AtLineStart(v) && AfterEnd(v, EndOf(s, name))
    ensures ViewNode(s, v, ElementNode(n, name, [TextNode(n, text)]), None)
         == v.(tokens := v.tokens + [Plain(text), EndOf(s, name)])
  {
    hide IsSpace, DropsPlainText, IsParagraph, IsBlock;
    var t := ElementNode(n, name, [TextNode(n, text)]);
    BlockIsPlain(s, v, t, name);
    ElementIsViewed(s, v, t, name, None);
    OneTextInside(s, v, n, t, text);
    BreaksAroundText(s, v, name, text);
  }

  // Blocks with such texts, and white space behind each.
  function Blocks(n: Node, name: string, texts: seq<string>, space: string): Forest {
    if texts == [] then []
    else
      [ElementNode(n, name, [TextNode(n, texts[0])])]
      + ((if space == "" then [] else [TextNode(n, space)]) + Blocks(n, name, texts[1..], space))
  }

  // The legacy form shows white space between blocks.
  predicate IsSkipped(s: Setting, space: string) {
    AllSpace(space) && (s.legacy ==> space == "")
  }

  lemma SpaceIsSkipped(s: Setting, v: View, n: Node, space: string, ts: Forest)
    requires IsSkipped(s, space) && AtLineStart(v) && AfterBreak(v)
    ensures ViewChildren(s, v, (if space == "" then [] else [TextNode(n, space)]) + ts, None)
         == ViewChildren(s, v, ts, None)
  {
    if space == "" {
      assert [] + ts == ts;
    } else {
      var t := TextNode(n, space);
      assert Extended(v.links, space) == v.links;
      assert ViewNode(s, v, t, None) == PushText(s, v, space) == v;
      assert ([t] + ts)[0] == t && ([t] + ts)[1..] == ts;
    }
  }

  lemma {:induction false} BlocksAreViewed(s: Setting, v: View, n: Node, name: string, texts: seq<string>,
                                           space: string)
    requires IsTextBlock(s.policy, name) && AreLines(texts) && IsSkipped(s, space)
    requires AtLineStart(v) && AfterEnd(v, EndOf(s, name))
    ensures ViewChildren(s, v, Blocks(n, name, texts, space), None)
         == v.(tokens := v.tokens + LineTokens(EndOf(s, name), texts))
    decreases texts
  {
    hide IsLine, IsTextBlock, IsParagraph, ViewNode, IsSkipped;
    if texts == [] {
      assert v.tokens + [] == v.tokens;
    } else {
      var end, t := EndOf(s, name), ElementNode(n, name, [TextNode(n, texts[0])]);
      var w := v.(tokens := v.tokens + [Plain(texts[0]), end]);
      BlockIsViewed(s, v, n, name, texts[0]);
      assert AreLines(texts[1..]) && w.tokens[|w.tokens| - 1] == end;
      SpaceIsSkipped(s, w, n, space, Blocks(n, name, texts[1..], space));
      BlocksAreViewed(s, w, n, name, texts[1..], space);
      var rest := (if space == "" then [] else [TextNode(n, space)]) + Blocks(n, name, texts[1..], space);
      assert Blocks(n, name, texts, space) == [t] + rest && ([t] + rest)[1..] == rest;
      Associate(v.tokens, [Plain(texts[0]), end], LineTokens(end, texts[1..]));
    }
  }

  lemma FirstBlock(s: Setting, n: Node, name: string, texts: seq<string>, space: string)
    requires IsTextBlock(s.policy, name) && AreLines(texts) && texts != [] && IsSkipped(s, space)
    ensures ViewChildren(s, BLANK, Blocks(n, name, texts, space), None).tokens
         == [EndOf(s, name)] + LineTokens(EndOf(s, name), texts)
  {
    hide IsLine, DropsPlainText, IsParagraph, IsBlock, LineTokens, IsSkipped;
    var v := Push(BLANK, EndOf(s, name));
    var t := ElementNode(n, name, [TextNode(n, texts[0])]);
    assert v.tokens[0] == v.tokens[|v.tokens| - 1];
    assert PushElementBreak(s, BLANK, name) == v == PushElementBreak(s, v, name);
    BlockIsPlain(s, BLANK, t, name);
    BlockIsPlain(s, v, t, name);
    ElementIsViewed(s, BLANK, t, name, None);
    ElementIsViewed(s, v, t, name, None);
    SamePlainElement(s, BLANK, v, t, name);
    BlocksAreViewed(s, v, n, name, texts, space);
    assert Blocks(n, name, texts, space)[0] == t;
  }

  lemma SamePlainElement(s: Setting, v: View, w: View, t: Tree, name: string)
    requires PushElementBreak(s, v, name) == PushElementBreak(s, w, name)
    ensures ViewPlainElement(s, v, t, name) == ViewPlainElement(s, w, t, name)
  {
  }

  // Paragraphs and headings are separated by one blank line, other blocks and
  // all blocks in the legacy form by none, whatever white space is between them.
  lemma BlocksAreWritten(s: Setting, n: Node, name: string, texts: seq<string>, space: string)
    requires IsTextBlock(s.policy, name) && AreLines(texts) && IsSkipped(s, space)
    ensures PlainText(s, Tree(n, Other, "", "", [], Blocks(n, name, texts, space)))
         == Joined(texts, if IsParagraph(name) && !s.legacy then "\n\n" else "\n")
  {
    hide IsLine, IsTextBlock, IsParagraph, IsSkipped, Stands, LineTokens, Joined, TrimNewlines, Written;
    var t, end := Tree(n, Other, "", "", [], Blocks(n, name, texts, space)), EndOf(s, name);
    var separator := Between("x", EventsOf(end));
    assert ViewNode(s, BLANK, t, None) == ViewChildren(s, BLANK, t.kids, None);
    if texts == [] {
      NothingWritten(s, n, name, space);
    } else {
      StartStands(s.legacy, end);
      LinesStand(s.legacy, EventsOf(end), "", end, texts);
      FirstBlock(s, n, name, texts, space);
      JoinedEnds(texts, separator);
      assert "" + ("" + Joined(texts, separator)) == Joined(texts, separator);
      StandsAt(s.legacy, EventsOf(end) + Events(LineTokens(end, texts)), Joined(texts, separator), EventsOf(end));
      FormIsWritten(s.legacy, end, LineTokens(end, texts), Joined(texts, separator));
    }
  }

  lemma NothingWritten(s: Setting, n: Node, name: string, space: string)
    ensures TrimNewlines(Written(s.legacy, [])) == "" && Joined([], "") == Joined([], "\n") == Joined([], "\n\n") == ""
    ensures Blocks(n, name, [], space) == [] && ViewChildren(s, BLANK, [], None) == BLANK
  {
  }

  // ----- preformatted text and code

  // Preformatted text is written as it is, but for line breaks at its ends.
  lemma PreformattedIsWritten(s: Setting, n: Node, text: string)
    requires KnowsNames(s.policy) && text != ""
    ensures PlainText(s, ElementNode(n, "pre", [TextNode(n, text)])) == TrimNewlines(NormalizeLineEndings(text))
  {
    hide DropsPlainText, NormalizeLineEndings, TrimNewlines, Written, ViewChildren;
    var t := ElementNode(n, "pre", [TextNode(n, text)]);
    ContainersAreKept();
    var first, token := if s.legacy then BREAK else PARAGRAPH, Token(text, true, true, false, false, false);
    ElementIsViewed(s, BLANK, t, "pre", None);
    assert ViewContainer(s, BLANK, t, "pre") == ViewPreformatted(s, BLANK, t);
    var v := PushParagraphBreak(s, BLANK).(pre := 1);
    assert v.tokens == [first];
    VerbatimInside(s, v, n, t, text, token);
    var w := Inside(s, v, t).(pre := 0);
    assert w.tokens == [first, token];
    var end := PushParagraphBreak(s, w).tokens;
    assert end in {[first, token], [first, token] + [BREAK], [first, token] + [PARAGRAPH]};
    PreservedAlone(s.legacy, first, token, end);
  }

  // So is code, which is not a block.
  lemma CodeIsWritten(s: Setting, n: Node, text: string)
    requires KnowsNames(s.policy) && text != ""
    ensures PlainText(s, ElementNode(n, "code", [TextNode(n, text)])) == TrimNewlines(NormalizeLineEndings(text))
  {
    hide Layout, NormalizeLineEndings, TrimNewlines, Gap, DropsPlainText, ViewChildren;
    var t := ElementNode(n, "code", [TextNode(n, text)]);
    ContainersAreKept();
    var token, v := Token(text, true, false, false, false, false), BLANK.(code := 1);
    ElementIsViewed(s, BLANK, t, "code", None);
    assert ViewContainer(s, BLANK, t, "code") == ViewCode(s, BLANK, t);
    VerbatimInside(s, v, n, t, text, token);
    assert [] + [token] == [token];
    OutputIsLaidOut(s.legacy, [token]);
    EventsOfOne([], token);
    var e := Kept(NormalizeLineEndings(text), false, false);
    assert EventsOf(token) == [e] && [] + Events([token]) == Events([token]) && [] + [e] == [e];
    StepEvent(s.legacy, [], e);
    NothingStands(s.legacy, [Line]);
    StandsAt(s.legacy, [], "", [Line]);
    assert "" + "" + NormalizeLineEndings(text) == NormalizeLineEndings(text);
  }

  // The view after the one text that a verbatim element holds.
  lemma VerbatimInside(s: Setting, v: View, n: Node, t: Tree, text: string, token: Token)
    requires t.kids == [TextNode(n, text)] && text != "" && v.links == [] && v.cell == 0 && (v.pre > 0 || v.code > 0)
    requires token == Token(text, true, v.pre > 0, false, false, false)
    ensures Inside(s, v, t) == Push(v, token).(prefix := v.prefix && AllSpace(text))
  {
    hide AllSpace;
    assert Extended(v.links, text) == v.links && t.kids[1..] == [];
    assert PushText(s, v, text) == Push(v, token).(prefix := v.prefix && AllSpace(text));
    assert ViewNode(s, v, t.kids[0], Some(t.data)) == PushText(s, v, text);
    assert Inside(s, v, t) == ViewChildren(s, ViewNode(s, v, t.kids[0], Some(t.data)), t.kids[1..], Some(t.data));
  }

  lemma PreservedAlone(legacy: bool, first: Token, token: Token, tokens: seq<Token>)
    requires first in {BREAK, PARAGRAPH} && token.text != ""
    requires token == Token(token.text, true, true, false, false, false)
    requires tokens in {[first, token], [first, token] + [BREAK], [first, token] + [PARAGRAPH]}
    ensures Written(legacy, tokens) == NormalizeLineEndings(token.text)
  {
    hide NormalizeLineEndings, Layout, Gap, Separator, Stands, PutAll;
    OutputIsLaidOut(legacy, tokens);
    var es := Events([first, token]);
    PreservedIsLaidOut(legacy, first, token);
    if tokens != [first, token] {
      var end := tokens[2];
      assert tokens == [first, token] + [end] && EventsOf(end) == [EventsOf(end)[0]];
      EventsConcat([first, token], [end]);
      EventsOfOne(es, end);
      StepEvent(legacy, es, EventsOf(end)[0]);
    }
  }

  lemma PreservedIsLaidOut(legacy: bool, first: Token, token: Token)
    requires first in {BREAK, PARAGRAPH} && token.text != ""
    requires token == Token(token.text, true, true, false, false, false)
    ensures Layout(legacy, Events([first, token])) == NormalizeLineEndings(token.text)
  {
    hide NormalizeLineEndings, Layout, Gap, Stands;
    var e := Kept(NormalizeLineEndings(token.text), false, true);
    EventsOfTwo([], first, token);
    assert [] + Events([first, token]) == Events([first, token]);
    assert EventsOf(token) == [e] && [] + EventsOf(first) == EventsOf(first);
    StartStands(legacy, first);
    StandsAt(legacy, EventsOf(first), "", [Line]);
    StepEvent(legacy, EventsOf(first), e);
    assert "" + "" + NormalizeLineEndings(token.text) == NormalizeLineEndings(token.text);
  }

  // ----- line breaks and rules

  // Lines with such an element behind each.
  function BrokenLines(n: Node, name: string, texts: seq<string>): Forest {
    if texts == [] then [] else [TextNode(n, texts[0]), ElementNode(n, name, [])] + BrokenLines(n, name, texts[1..])
  }

  function BreakOf(s: Setting, name: string): Token {
    if name == "hr" && !s.legacy then PARAGRAPH else BREAK
  }

  lemma BreakIsViewed(s: Setting, v: View, n: Node, name: string, text: string)
    requires KnowsNames(s.policy) && name in {"br", "hr"} && IsLine(text) && AtLineStart(v)
    ensures ViewNode(s, ViewNode(s, v, TextNode(n, text), None), ElementNode(n, name, []), None)
         == v.(tokens := v.tokens + [Plain(text), BreakOf(s, name)])
  {
    var t := ElementNode(n, name, []);
    assert text[0] in text && !AllSpace(text);
    TextIsPushed(s, v, text);
    var w := ViewNode(s, v, TextNode(n, text), None);
    assert w == Push(v, Plain(text)).(prefix := false) && w.tokens[|w.tokens| - 1] == Plain(text);
    assert ViewNode(s, w, t, None) == ViewElement(s, w, t);
    assert ViewElement(s, w, t) == if name == "br" || s.legacy then PushBreak(w) else PushParagraphBreak(s, w);
    assert (v.tokens + [Plain(text)]) + [BreakOf(s, name)] == v.tokens + [Plain(text), BreakOf(s, name)];
  }

  lemma {:induction false} BreaksAreViewed(s: Setting, v: View, n: Node, name: string, texts: seq<string>)
    requires KnowsNames(s.policy) && name in {"br", "hr"} && AreLines(texts) && AtLineStart(v)
    ensures ViewChildren(s, v, BrokenLines(n, name, texts), None)
         == v.(tokens := v.tokens + LineTokens(BreakOf(s, name), texts))
    decreases texts
  {
    hide IsLine, ViewNode;
    if texts == [] {
      assert v.tokens + [] == v.tokens;
    } else {
      var a, b, rest := TextNode(n, texts[0]), ElementNode(n, name, []), BrokenLines(n, name, texts[1..]);
      var end := BreakOf(s, name);
      var w := v.(tokens := v.tokens + [Plain(texts[0]), end]);
      BreakIsViewed(s, v, n, name, texts[0]);
      assert AreLines(texts[1..]);
      BreaksAreViewed(s, w, n, name, texts[1..]);
      var all := BrokenLines(n, name, texts);
      assert all == [a, b] + rest && all[0] == a && all[1..] == [b] + rest && ([b] + rest)[1..] == rest;
      Associate(v.tokens, [Plain(texts[0]), end], LineTokens(end, texts[1..]));
    }
  }

  // A line break starts a new line; a rule leaves a blank line, but not in the
  // legacy form.
  lemma BreaksAreWritten(s: Setting, n: Node, name: string, texts: seq<string>)
    requires KnowsNames(s.policy) && name in {"br", "hr"} && AreLines(texts)
    ensures PlainText(s, Tree(n, Other, "", "", [], BrokenLines(n, name, texts)))
         == Joined(texts, if name == "hr" && !s.legacy then "\n\n" else "\n")
  {
    hide IsLine, Stands, LineTokens, BrokenLines, TrimNewlines, Layout, Events;
    var t, end := Tree(n, Other, "", "", [], BrokenLines(n, name, texts)), BreakOf(s, name);
    var all := Joined(texts, Between("x", EventsOf(end)));
    assert ViewNode(s, BLANK, t, None) == ViewChildren(s, BLANK, t.kids, None);
    BreaksAreViewed(s, BLANK, n, name, texts);
    var tokens := LineTokens(end, texts);
    assert [] + tokens == tokens && [] + Events(tokens) == Events(tokens);
    NothingStands(s.legacy, EventsOf(end));
    LinesStand(s.legacy, [], "", end, texts);
    OutputIsLaidOut(s.legacy, tokens);
    StandsAt(s.legacy, Events(tokens), "" + if texts == [] then "" else "" + all, EventsOf(end));
    if texts != [] {
      JoinedEnds(texts, Between("x", EventsOf(end)));
      assert "" + ("" + all) == all;
    }
    assert Written(s.legacy, tokens) == all;
    TrimmedAsItIs(all);
  }

  lemma NothingStands(legacy: bool, gap: seq<Event>)
    requires gap in {[], [Line], [Paragraph]}
    ensures Stands(legacy, [], "", gap)
  {
  }
}
