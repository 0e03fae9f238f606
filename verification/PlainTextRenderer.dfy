// The renderer that walks a tree and feeds the plain-text writer, with its
// stacks of open links, lists and tables and its two byte budgets.
//
// Rendering only reads the tree, so it takes the tree value. Each method takes
// as a ghost the view that an unlimited rendering would have reached, and
// leaves the renderer on track with the view that follows it.
module PlainTextRenderer {
  import opened Contexts
  import opened Html
  import opened PlainTextBudget
  import opened PlainTextContent
  import opened PlainTextOutput
  import opened PlainTextRendering
  import opened RenderingFacts
  import opened SanitizeSpec
  import opened Sequences
  import opened Texts
  import opened Wrappers

  // ----- the label budget

  function LabelBytes(links: seq<Link>): nat {
    if links == [] then 0 else Bytes(links[0].text) + LabelBytes(links[1..])
  }

  lemma {:induction false} ExtendedBytes(links: seq<Link>, text: string)
    ensures LabelBytes(Extended(links, text)) == LabelBytes(links) + Bytes(text) * |links|
  {
    if links != [] {
      ExtendedBytes(links[1..], text);
      assert Extended(links, text)[1..] == Extended(links[1..], text);
      BytesConcat(links[0].text, text);
      OneMore(Bytes(text), |links| - 1);
    }
  }

  lemma OneMore(b: nat, n: nat)
    ensures b * (n + 1) == b + b * n
  {
  }

  lemma {:induction false} LabelBytesSnoc(links: seq<Link>, link: Link)
    ensures LabelBytes(links + [link]) == LabelBytes(links) + Bytes(link.text)
  {
    if links == [] {
      assert links + [link] == [link];
    } else {
      LabelBytesSnoc(links[1..], link);
      assert (links + [link])[1..] == links[1..] + [link];
    }
  }

  lemma {:induction false} TargetBytes(links: seq<Link>, href: string)
    ensures LabelBytes(WithTarget(links, href)) == LabelBytes(links)
  {
    if links != [] {
      TargetBytes(links[1..], href);
      assert WithTarget(links, href)[1..] == WithTarget(links[1..], href);
    }
  }

  lemma LabelsTogether(links: seq<Link>, text: string)
    ensures LabelBytes(Extended(links, text)) == LabelBytes(links) + Bytes(text) * |links|
    ensures links == [] ==> LabelBytes(links) == 0 && Bytes(text) * |links| == 0
  {
    ExtendedBytes(links, text);
  }

  // The check that divides what is left passes exactly when the product fits.
  lemma DividedCheck(size: nat, room: nat, n: nat)
    requires n > 0
    ensures size <= room / n <==> size * n <= room
  {
    var q := room / n;
    assert q * n <= room < (q + 1) * n by {
      assert room == q * n + room % n;
      OneMore(n, q);
    }
    if size <= q {
      Times(size, q, n);
    } else {
      Times(q + 1, size, n);
    }
  }

  lemma Times(a: nat, b: nat, n: nat)
    requires a <= b
    ensures a * n <= b * n
  {
  }

  // ----- the two limits

  function Written(legacy: bool, tokens: seq<Token>): string {
    PutAll(Mode(0, legacy), EMPTY, tokens).out
  }

  // A rendering needs more than the limits allow: four times the limit for all
  // label bytes, the limit for the output. A limit of zero is none.
  predicate Exceeds(maximumBytes: nat, legacy: bool, tokens: seq<Token>, labels: nat) {
    maximumBytes > 0 && (labels > 4 * maximumBytes || Bytes(Written(legacy, tokens)) > maximumBytes)
  }

  // What has been too much stays too much.
  lemma GrowsExceeds(maximumBytes: nat, legacy: bool, a: View, b: View)
    requires Grows(a, b) && Exceeds(maximumBytes, legacy, a.tokens, a.labels)
    ensures Exceeds(maximumBytes, legacy, b.tokens, b.labels)
  {
    hide PutAll;
    MoreTokensMoreOutput(legacy, a.tokens, b.tokens);
    BytesOfPrefix(Written(legacy, a.tokens), Written(legacy, b.tokens));
  }

  // The limited writer fails on these tokens exactly when they are too much.
  lemma WriterExceeds(maximumBytes: nat, legacy: bool, tokens: seq<Token>)
    ensures PutAll(Mode(maximumBytes, legacy), EMPTY, tokens).failed
            <==> maximumBytes > 0 && Bytes(Written(legacy, tokens)) > maximumBytes
  {
    hide PutAll;
    if maximumBytes > 0 {
      LimitedOutputIsPrefix(maximumBytes, legacy, tokens);
    } else {
      MoreTokensMoreOutput(legacy, tokens, tokens);
    }
  }

  lemma {:induction false} PutAllSnoc(m: Mode, w: Writer, tokens: seq<Token>, token: Token)
    ensures PutAll(m, w, tokens + [token]) == Put(m, PutAll(m, w, tokens), token)
    decreases tokens
  {
    if tokens == [] {
      assert tokens + [token] == [token];
      assert PutAll(m, w, [token]) == PutAll(m, Put(m, w, token), []);
    } else {
      PutAllSnoc(m, Put(m, w, tokens[0]), tokens[1..], token);
      assert (tokens + [token])[1..] == tokens[1..] + [token];
    }
  }

  // ----- the renderer

  class Renderer {
    const policy: Policy
    const redundant: Redundant
    const maximumBytes: nat
    const legacy: bool
    const ctx: Context
    const output: Output
    var err: bool
    var labelBytes: nat
    var previous: Token
    var hasPrevious: bool
    var links: seq<Link>
    var lists: seq<List>
    var tables: seq<Table>
    var preDepth: nat
    var codeDepth: nat
    var tableCellDepth: nat
    var linePrefix: bool
    ghost var cancelled: bool
    ghost var written: seq<Token>
    ghost var labels: nat

    constructor (policy: Policy, redundant: Redundant, maximumBytes: nat, legacy: bool, ctx: Context)
      ensures Valid() && fresh(output) && !err && Now() == BLANK
      ensures this.policy == policy && this.redundant == redundant
      ensures this.maximumBytes == maximumBytes && this.legacy == legacy && this.ctx == ctx
    {
      this.policy, this.redundant, this.maximumBytes, this.legacy := policy, redundant, maximumBytes, legacy;
      this.ctx := ctx;
      output := new Output(maximumBytes, legacy);
      err, labelBytes, hasPrevious, linePrefix := false, 0, false, false;
      previous := Token("", false, false, false, false, false);
      links, lists, tables := [], [], [];
      preDepth, codeDepth, tableCellDepth := 0, 0, 0;
      cancelled, written, labels := false, [], 0;
    }

    ghost function TheSetting(): Setting {
      Setting(policy, redundant, legacy)
    }

    ghost function Now(): View
      reads this
    {
      View(written, linePrefix, links, lists, tables, preDepth, codeDepth, tableCellDepth, labels)
    }

    // All open labels together stay within four times the output limit, and
    // the writer has been given exactly the tokens `written`.
    ghost predicate Valid()
      reads this, output
    {
      && output.TheMode() == Mode(maximumBytes, legacy)
      && output.State() == PutAll(output.TheMode(), EMPTY, written) && (output.err ==> err)
      && hasPrevious == (written != []) && (hasPrevious ==> previous == written[|written| - 1])
      && (maximumBytes > 0 ==> LabelBytes(links) <= labelBytes <= 4 * maximumBytes && labelBytes == labels)
      && (cancelled ==> err && ctx.cancellable)
    }

    // An unlimited rendering would be at `v`: so is this one, unless it was
    // cancelled or `v` needs more than the limits allow.
    ghost predicate Tracks(v: View)
      reads this
    {
      if err then cancelled || Exceeds(maximumBytes, legacy, v.tokens, v.labels) else Now() == v
    }

    lemma IsAt(v: View)
      requires Tracks(v) && !err
      ensures Now() == v && (|lists| > 0 <==> |v.lists| > 0) && (|tables| > 0 <==> |v.tables| > 0)
    {
      hide Exceeds;
    }

    method AppendToken(token: Token, ghost v: View)
      requires Valid() && Tracks(v)
      modifies this`err, this`previous, this`hasPrevious, this`written, output
      ensures Valid() && Tracks(Push(v, token)) && (old(err) ==> err)
      ensures err ==> old(err) || output.err
    {
      hide PutAll, Exceeds, LabelBytes;
      if err {
        if !cancelled {
          GrowsExceeds(maximumBytes, legacy, v, Push(v, token));
        }
        return;
      }
      PutAllSnoc(output.TheMode(), EMPTY, written, token);
      output.Write(token);
      written := written + [token];
      err := output.err;
      previous, hasPrevious := token, true;
      WriterExceeds(maximumBytes, legacy, written);
      ExceedsIs(maximumBytes, legacy, written, labels);
    }

    method AppendRaw(value: string, ghost v: View)
      requires Valid() && Tracks(v)
      modifies this`err, this`previous, this`hasPrevious, this`written, output
      ensures Valid() && Tracks(PushRaw(v, value)) && (old(err) ==> err)
      ensures SameStacks(old(Now()), Now())
    {
      hide PutAll, Exceeds, LabelBytes;
      if err || value == "" {
        if err && !cancelled {
          GrowsExceeds(maximumBytes, legacy, v, PushRaw(v, value));
        }
        return;
      }
      AppendToken(Token(value, true, false, true, false, false), v);
    }

    method AppendBreak(ghost v: View)
      requires Valid() && Tracks(v)
      modifies this`err, this`previous, this`hasPrevious, this`written, this`linePrefix, output
      ensures Valid() && Tracks(PushBreak(v)) && (old(err) ==> err)
      ensures SameStacks(old(Now()), Now())
    {
      hide PutAll, Exceeds, LabelBytes;
      AppendToken(Token("", false, false, false, true, false), v);
      linePrefix := false;
    }

    method AppendBlockBreak(ghost v: View)
      requires Valid() && Tracks(v)
      modifies this`err, this`previous, this`hasPrevious, this`written, this`linePrefix, output
      ensures Valid() && Tracks(PushBlockBreak(v)) && (old(err) ==> err)
      ensures SameStacks(old(Now()), Now())
    {
      hide PutAll, Exceeds, LabelBytes;
      if err && !cancelled {
        GrowsExceeds(maximumBytes, legacy, v, PushBlockBreak(v));
      }
      if linePrefix {
        return;
      }
      if hasPrevious && (previous.lineBreak || previous.blockBreak) {
        return;
      }
      if hasPrevious {
        var last := NormalizeLineEndings(previous.text);
        if previous.preserve && previous.block && last != "" && last[|last| - 1] == '\n' {
          return;
        }
      }
      AppendBreak(v);
    }

    method AppendParagraphBreak(ghost v: View)
      requires Valid() && Tracks(v)
      modifies this`err, this`previous, this`hasPrevious, this`written, this`linePrefix, output
      ensures Valid() && Tracks(PushParagraphBreak(TheSetting(), v)) && (old(err) ==> err)
      ensures SameStacks(old(Now()), Now())
    {
      hide PutAll, Exceeds, LabelBytes, PushBlockBreak;
      if legacy {
        AppendBlockBreak(v);
        return;
      }
      if err && !cancelled {
        GrowsExceeds(maximumBytes, legacy, v, PushParagraphBreak(TheSetting(), v));
      }
      if linePrefix {
        return;
      }
      if hasPrevious && previous.blockBreak {
        return;
      }
      AppendToken(Token("", false, false, false, false, true), v);
    }

    method AppendElementBreak(name: string, ghost v: View)
      requires Valid() && Tracks(v)
      modifies this`err, this`previous, this`hasPrevious, this`written, this`linePrefix, output
      ensures Valid() && Tracks(PushElementBreak(TheSetting(), v, name)) && (old(err) ==> err)
      ensures SameStacks(old(Now()), Now())
    {
      hide PutAll, Exceeds, LabelBytes, PushBlockBreak, PushParagraphBreak, IsParagraph, IsBlock;
      if IsParagraph(name) {
        AppendParagraphBreak(v);
      } else if IsBlock(name) {
        AppendBlockBreak(v);
      }
    }

    method AppendListBreak(nested: bool, ghost v: View)
      requires Valid() && Tracks(v)
      modifies this`err, this`previous, this`hasPrevious, this`written, this`linePrefix, output
      ensures Valid() && Tracks(PushListBreak(TheSetting(), v, nested)) && (old(err) ==> err)
      ensures SameStacks(old(Now()), Now())
    {
      hide PutAll, Exceeds, LabelBytes, PushBlockBreak, PushParagraphBreak;
      if nested {
        AppendBlockBreak(v);
        return;
      }
      AppendParagraphBreak(v);
    }

    // `value` does not fit into the budget of the open labels.
    ghost predicate Overflows(value: string)
      reads this
    {
      maximumBytes > 0 && |links| > 0 && Bytes(value) * |links| > 4 * maximumBytes - labelBytes
    }

    // Adds `value` to every open label if all of that is within the budget, and
    // to none otherwise.
    method ExtendLabels(value: string)
      requires Valid() && !err
      modifies this`err, this`labelBytes, this`links, this`labels
      ensures Valid()
      ensures err <==> old(Overflows(value))
      ensures err ==> Now() == old(Now()) && labels + Bytes(value) * |links| > 4 * maximumBytes
      ensures !err ==> Now() == Label(old(Now()), value)
    {
      hide PutAll, Bytes, LabelBytes;
      ghost var size := Bytes(value) * |links|;
      LabelsTogether(links, value);
      if maximumBytes > 0 && |links| > 0 {
        DividedCheck(Bytes(value), 4 * maximumBytes - labelBytes, |links|);
        if Bytes(value) > (4 * maximumBytes - labelBytes) / |links| {
          err := true;
          return;
        }
        labelBytes := labelBytes + Bytes(value) * |links|;
      }
      assert size == Bytes(value) * |links|;
      labels := labels + size;
      links := Extended(links, value);
    }

    // The text goes to all open labels, or to none when it does not fit; then
    // nothing is written either.
    method AppendText(value: string, ghost v: View)
      requires Valid() && Tracks(v)
      modifies this, output
      ensures Valid() && Tracks(PushText(TheSetting(), v, value)) && (old(err) ==> err)
      ensures Restored(old(Now()), Now())
      ensures old(err) || value == "" ==> err == old(err) && Now() == old(Now())
      ensures !old(err) && value != "" && old(Overflows(value)) ==> err && Now() == old(Now())
      ensures !old(err) && value != "" && !old(Overflows(value)) ==>
                links == Extended(old(links), value) && (err ==> output.err)
    {
      hide PutAll, Exceeds, LabelBytes, Bytes, Letters, Said, WriteOnly;
      if err || value == "" {
        if err && !cancelled {
          TextRenders(TheSetting(), v, value);
          GrowsExceeds(maximumBytes, legacy, v, PushText(TheSetting(), v, value));
        }
        return;
      }
      ExtendLabels(value);
      if err {
        WrittenTextIsSaid(TheSetting(), Label(v, value), value);
        ghost var w := PushText(TheSetting(), v, value);
        ExceedsIs(maximumBytes, legacy, w.tokens, w.labels);
        return;
      }
      WriteText(value, Label(v, value));
    }

    // Writes document text, with bars escaped inside a cell, unless it is white
    // space that a line would start with.
    method WriteText(value: string, ghost v: View)
      requires Valid() && Tracks(v) && !err
      modifies this`err, this`previous, this`hasPrevious, this`written, this`linePrefix, output
      ensures Valid() && Tracks(WriteOnly(TheSetting(), v, value))
      ensures err ==> output.err
    {
      hide PutAll, Exceeds, LabelBytes, EscapePipes, AllSpace;
      if !AllSpace(value) {
        linePrefix := false;
      }
      var text := value;
      if tableCellDepth > 0 {
        text := EscapePipes(text);
      }
      if !legacy && AllSpace(text) && preDepth == 0 && codeDepth == 0 &&
         hasPrevious && (previous.lineBreak || previous.blockBreak) {
        return;
      }
      AppendToken(Token(text, preDepth > 0 || codeDepth > 0, preDepth > 0, false, false, false), Now());
    }

    method RenderNode(t: Tree, parent: Option<string>, ghost v: View)
      requires Valid() && Tracks(v)
      modifies this, output
      ensures Valid() && Tracks(ViewNode(TheSetting(), v, t, parent)) && (old(err) ==> err)
      ensures Restored(old(Now()), Now())
      decreases t, 3
    {
      hide PutAll, Exceeds, LabelBytes, PushText, ViewElement;
      if err {
        if !cancelled {
          NodeGrows(TheSetting(), v, t, parent);
          GrowsExceeds(maximumBytes, legacy, v, ViewNode(TheSetting(), v, t, parent));
        }
        return;
      }
      var stopped: bool := *;
      if stopped && ctx.cancellable {
        err, cancelled := true, true;
        return;
      }
      match t.kind {
      case Text =>
        if AllSpace(t.data) && IgnoresStructuralWhitespace(parent) {
          return;
        }
        AppendText(t.data, v);
      case Element =>
        RenderElement(t, v);
      case Other =>
        RenderChildren(t.kids, None, v);
      }
    }

    predicate IgnoresStructuralWhitespace(parent: Option<string>)
      reads this
    {
      !(preDepth > 0 || codeDepth > 0 || parent.None?) && IsStructural(policy.lower(parent.value))
    }

    method RenderChildren(ts: Forest, parent: Option<string>, ghost v: View)
      requires Valid() && Tracks(v)
      modifies this, output
      ensures Valid() && Tracks(ViewChildren(TheSetting(), v, ts, parent)) && (old(err) ==> err)
      ensures Restored(old(Now()), Now())
      decreases ts, 0
    {
      hide PutAll, Exceeds, LabelBytes, ViewNode;
      ghost var w := v;
      for i := 0 to |ts|
        invariant Valid() && Tracks(w) && (old(err) ==> err)
        invariant Restored(old(Now()), Now())
        invariant ViewChildren(TheSetting(), w, ts[i..], parent) == ViewChildren(TheSetting(), v, ts, parent)
      {
        if err {
          if !cancelled {
            ChildrenGrow(TheSetting(), w, ts[i..], parent);
            GrowsExceeds(maximumBytes, legacy, w, ViewChildren(TheSetting(), v, ts, parent));
          }
          return;
        }
        assert ts[i..][0] == ts[i] && ts[i..][1..] == ts[i + 1..];
        RenderNode(ts[i], parent, w);
        w := ViewNode(TheSetting(), w, ts[i], parent);
      }
    }

    method RenderElement(t: Tree, ghost v: View)
      requires Valid() && Tracks(v) && !err
      modifies this, output
      ensures Valid() && Tracks(ViewElement(TheSetting(), v, t))
      ensures Restored(old(Now()), Now())
      decreases t, 2
    {
      hide PutAll, Exceeds, LabelBytes, DropsPlainText, PushParagraphBreak, PushRaw, PushBreak;
      var name := policy.lower(t.data);
      if name == "img" {
        var alt := AttributeValue(policy, t.attr, "alt");
        AppendRaw(alt, v);
        return;
      }
      if DropsPlainText(name) {
        return;
      }
      if name == "br" {
        AppendBreak(v);
      } else if name == "hr" {
        if legacy {
          AppendBreak(v);
        } else {
          AppendParagraphBreak(v);
        }
      } else {
        RenderContainer(t, name, v);
      }
    }

    method RenderContainer(t: Tree, name: string, ghost v: View)
      requires Valid() && Tracks(v) && !err
      modifies this, output
      ensures Valid() && Tracks(ViewContainer(TheSetting(), v, t, name))
      ensures Restored(old(Now()), Now())
      decreases t, 1, 1
    {
      hide PutAll, Exceeds, LabelBytes, Restored, ViewLink, ViewCode, ViewPreformatted, ViewList, ViewListItem;
      hide ViewTable, ViewTableRow, ViewTableCell, ViewPlainElement;
      match name {
      case "a" =>
        ghost var shown := RenderLink(t, v);
      case "code" => RenderCode(t, v);
      case "pre" => RenderPreformatted(t, v);
      case "ul" => RenderList(t, false, v);
      case "ol" => RenderList(t, true, v);
      case "li" => RenderListItem(t, v);
      case "table" => RenderTable(t, v);
      case "tr" => RenderTableRow(t, v);
      case "td" => RenderTableCell(t, v);
      case "th" => RenderTableCell(t, v);
      case _ => RenderPlainElement(t, name, v);
      }
    }

    method RenderPlainElement(t: Tree, name: string, ghost v: View)
      requires Valid() && Tracks(v) && !err
      modifies this, output
      ensures Valid() && Tracks(ViewPlainElement(TheSetting(), v, t, name))
      ensures Restored(old(Now()), Now())
      decreases t, 1, 0
    {
      hide PutAll, Exceeds, LabelBytes, ViewChildren, PushElementBreak;
      AppendElementBreak(name, v);
      RenderChildren(t.kids, Some(t.data), PushElementBreak(TheSetting(), v, name));
      AppendElementBreak(name, Inside(TheSetting(), PushElementBreak(TheSetting(), v, name), t));
    }

    method RenderCode(t: Tree, ghost v: View)
      requires Valid() && Tracks(v) && !err
      modifies this, output
      ensures Valid() && Tracks(ViewCode(TheSetting(), v, t))
      ensures Restored(old(Now()), Now())
      decreases t, 1, 0
    {
      hide PutAll, Exceeds, LabelBytes, ViewChildren;
      codeDepth := codeDepth + 1;
      RenderChildren(t.kids, Some(t.data), v.(code := v.code + 1));
      codeDepth := codeDepth - 1;
    }

    method RenderPreformatted(t: Tree, ghost v: View)
      requires Valid() && Tracks(v) && !err
      modifies this, output
      ensures Valid() && Tracks(ViewPreformatted(TheSetting(), v, t))
      ensures Restored(old(Now()), Now())
      decreases t, 1, 0
    {
      hide PutAll, ViewChildren, PushParagraphBreak, Restored, Valid, Tracks, Now, Exceeds, LabelBytes;
      IsAt(v);
      AppendParagraphBreak(v);
      ghost var w := PushParagraphBreak(TheSetting(), v);
      ParagraphBreakKeeps(TheSetting(), v);
      EnterPre(w);
      ghost var before := Now();
      RenderChildren(t.kids, Some(t.data), w.(pre := w.pre + 1));
      ghost var after := Now();
      RestoredCounts(before, after);
      ghost var x := Inside(TheSetting(), w.(pre := w.pre + 1), t);
      LeavePre(x, v.pre);
      AppendParagraphBreak(x.(pre := v.pre));
      RestoredPre(old(Now()), before, after, Now());
    }

    method EnterPre(ghost v: View)
      requires Valid() && Tracks(v)
      modifies this`preDepth
      ensures Valid() && Tracks(v.(pre := v.pre + 1)) && Now() == old(Now()).(pre := old(Now()).pre + 1)
    {
      hide PutAll, Exceeds, LabelBytes;
      preDepth := preDepth + 1;
    }

    method LeavePre(ghost v: View, ghost outer: nat)
      requires Valid() && Tracks(v) && Now().pre == outer + 1
      modifies this`preDepth
      ensures Valid() && Tracks(v.(pre := outer)) && Now() == old(Now()).(pre := outer)
    {
      hide PutAll, Exceeds, LabelBytes;
      preDepth := preDepth - 1;
    }

    // `shown` is the label the link has collected when it closes.
    method RenderLink(t: Tree, ghost v: View) returns (ghost shown: string)
      requires Valid() && Tracks(v) && !err
      modifies this, output
      ensures Valid() && Tracks(ViewLink(TheSetting(), v, t))
      ensures Restored(old(Now()), Now())
      ensures !err ==> shown == InnerTexts(policy, t.kids, Some(t.data), old(Verbatim(Now())))
      decreases t, 1, 0
    {
      IsAt(v);
      hide PutAll, ViewChildren, Exceeds, LabelBytes, ShowLink, Said, Letters, InnerTexts, ItemsOf;
      hide Restored, Valid, Tracks, Now, Renders;
      var href := LinkTarget(policy, t.attr);
      ghost var w := OpenLink(v, href);
      ghost var x := Inside(TheSetting(), w, t);
      BeginLink(href, v);
      ghost var before := Now();
      RenderChildren(t.kids, Some(t.data), w);
      ghost var after := Now();
      RestoredCounts(before, after);
      ChildrenRender(TheSetting(), w, t.kids, Some(t.data));
      LinkCloses(TheSetting(), v, href, x, TextInside(TheSetting(), t, Verbatim(v)), ItemsInside(TheSetting(), t));
      shown := EndLink(x);
      RestoredLink(old(Now()), before, after, Now(), href);
    }

    method BeginLink(href: string, ghost v: View)
      requires Valid() && Tracks(v)
      modifies this`links
      ensures Valid() && Tracks(OpenLink(v, href)) && Now() == OpenLink(old(Now()), href)
    {
      hide PutAll, Exceeds;
      LabelBytesSnoc(links, Link(href, "", []));
      links := links + [Link(href, "", [])];
    }

    method EndLink(ghost v: View) returns (ghost shown: string)
      requires Valid() && Tracks(v) && |Now().links| > 0
      modifies this`err, this`previous, this`hasPrevious, this`written, this`links, output
      ensures Valid() && Tracks(ShowLink(TheSetting(), v)) && ClosesLink(old(Now()), Now())
      ensures !err ==> |v.links| > 0 && shown == v.links[|v.links| - 1].text
    {
      hide PutAll, Exceeds, LabelBytes, ShowLink;
      shown := links[|links| - 1].text;
      if err {
        if !cancelled {
          ShowLinkGrows(TheSetting(), v);
          GrowsExceeds(maximumBytes, legacy, v, ShowLink(TheSetting(), v));
        }
        CloseLink();
      } else {
        CloseShownLink(v);
      }
    }

    // Writes the target of the innermost link unless the text already shows
    // it, and closes the link.
    method CloseShownLink(ghost v: View)
      requires Valid() && Tracks(v) && !err && |links| > 0
      modifies this`err, this`previous, this`hasPrevious, this`written, this`links, output
      ensures Valid() && Tracks(ShowLink(TheSetting(), v)) && ClosesLink(old(Now()), Now())
    {
      hide PutAll, Exceeds, LabelBytes, NormalizeLabel, PushRaw;
      var link := links[|links| - 1];
      var href, text := link.href, NormalizeLabel(link.text, false, false);
      var represented := text != "" && href != "";
      if represented && !redundant(text, href) && !ContainsTarget(policy, link.nestedTargets, href) {
        AppendRaw(" (" + href + ")", v);
      }
      CloseLink();
      if represented {
        RememberTarget(href);
      }
    }

    method RememberTarget(href: string)
      requires Valid()
      modifies this`links
      ensures Valid() && links == WithTarget(old(links), href)
    {
      hide PutAll, LabelBytes, Bytes;
      TargetBytes(links, href);
      links := WithTarget(links, href);
    }

    method CloseLink()
      requires Valid() && |links| > 0
      modifies this`links
      ensures Valid() && links == old(links)[..|old(links)| - 1]
    {
      var rest := links[..|links| - 1];
      LabelBytesSnoc(rest, links[|links| - 1]);
      assert links == rest + [links[|links| - 1]];
      links := rest;
    }

    method RenderList(t: Tree, ordered: bool, ghost v: View)
      requires Valid() && Tracks(v) && !err
      modifies this, output
      ensures Valid() && Tracks(ViewList(TheSetting(), v, t, ordered))
      ensures Restored(old(Now()), Now())
      decreases t, 1, 0
    {
      var nested := |lists| > 0;
      IsAt(v);
      hide PutAll, ViewChildren, PushListBreak, Restored, Valid, Tracks, Now, Exceeds, LabelBytes;
      AppendListBreak(nested, v);
      ghost var w := PushListBreak(TheSetting(), v, nested);
      EnterList(ordered, w);
      ghost var before := Now();
      ghost var x := w.(lists := w.lists + [List(ordered, 1)]);
      RenderChildren(t.kids, Some(t.data), x);
      ghost var after := Now();
      RestoredCounts(before, after);
      ghost var y := Inside(TheSetting(), x, t);
      LeaveList(y);
      AppendListBreak(nested, y.(lists := DropLast(y.lists)));
      RestoredList(old(Now()), before, after, Now(), List(ordered, 1));
    }

    method EnterList(ordered: bool, ghost v: View)
      requires Valid() && Tracks(v)
      modifies this`lists
      ensures Valid() && Tracks(v.(lists := v.lists + [List(ordered, 1)]))
      ensures Now() == old(Now()).(lists := old(Now()).lists + [List(ordered, 1)])
    {
      hide PutAll, Exceeds, LabelBytes;
      lists := lists + [List(ordered, 1)];
    }

    method LeaveList(ghost v: View)
      requires Valid() && Tracks(v) && |Now().lists| > 0
      modifies this`lists
      ensures Valid() && Tracks(v.(lists := DropLast(v.lists)))
      ensures Now() == old(Now()).(lists := DropLast(old(Now()).lists))
    {
      hide PutAll, Exceeds, LabelBytes;
      lists := lists[..|lists| - 1];
    }

    method RenderListItem(t: Tree, ghost v: View)
      requires Valid() && Tracks(v) && !err
      modifies this, output
      ensures Valid() && Tracks(ViewListItem(TheSetting(), v, t))
      ensures Restored(old(Now()), Now())
      decreases t, 1, 0
    {
      hide PutAll, Exceeds, LabelBytes, ViewChildren, StartItem, PushBlockBreak;
      BeginItem(v);
      RenderChildren(t.kids, Some(t.data), StartItem(v));
      AppendBlockBreak(Inside(TheSetting(), StartItem(v), t));
    }

    method BeginItem(ghost v: View)
      requires Valid() && Tracks(v) && !err
      modifies this`err, this`previous, this`hasPrevious, this`written, this`linePrefix, this`lists, output
      ensures Valid() && Tracks(StartItem(v)) && Restored(old(Now()), Now())
    {
      hide PutAll, Exceeds, LabelBytes, PushBlockBreak, PushRaw, Indent, Marker, NextItem, Restored;
      BlockBreakKeeps(v);
      AppendBlockBreak(v);
      var indent := Indent(lists);
      var marker := NumberItem();
      RawKeeps(PushBlockBreak(v), Indent(v.lists) + Marker(v.lists), NextItem(v.lists));
      AppendRaw(indent + marker, PushBlockBreak(v).(lists := NextItem(v.lists)));
      linePrefix := true;
      NextItemRestored(old(Now()), Now());
    }

    method NumberItem() returns (marker: string)
      modifies this`lists
      ensures marker == Marker(old(lists)) && lists == NextItem(old(lists))
    {
      marker := "- ";
      if |lists| > 0 {
        var list := lists[|lists| - 1];
        if list.ordered {
          marker := Itoa(list.next) + ". ";
          lists := lists[|lists| - 1 := list.(next := list.next + 1)];
        }
      }
    }

    method RenderTable(t: Tree, ghost v: View)
      requires Valid() && Tracks(v) && !err
      modifies this, output
      ensures Valid() && Tracks(ViewTable(TheSetting(), v, t))
      ensures Restored(old(Now()), Now())
      decreases t, 1, 0
    {
      var nested := |tables| > 0;
      IsAt(v);
      hide PutAll, ViewChildren, PushListBreak, Restored, Valid, Tracks, Now, Exceeds, LabelBytes;
      AppendListBreak(nested, v);
      ghost var w := PushListBreak(TheSetting(), v, nested);
      EnterTable(w);
      ghost var before := Now();
      ghost var x := w.(tables := w.tables + [Table(false, 0)]);
      RenderChildren(t.kids, Some(t.data), x);
      ghost var after := Now();
      RestoredCounts(before, after);
      ghost var y := Inside(TheSetting(), x, t);
      LeaveTable(y);
      AppendListBreak(nested, y.(tables := DropLast(y.tables)));
      RestoredTable(old(Now()), before, after, Now(), Table(false, 0));
    }

    method EnterTable(ghost v: View)
      requires Valid() && Tracks(v)
      modifies this`tables
      ensures Valid() && Tracks(v.(tables := v.tables + [Table(false, 0)]))
      ensures Now() == old(Now()).(tables := old(Now()).tables + [Table(false, 0)])
    {
      hide PutAll, Exceeds, LabelBytes;
      tables := tables + [Table(false, 0)];
    }

    method LeaveTable(ghost v: View)
      requires Valid() && Tracks(v) && |Now().tables| > 0
      modifies this`tables
      ensures Valid() && Tracks(v.(tables := DropLast(v.tables)))
      ensures Now() == old(Now()).(tables := DropLast(old(Now()).tables))
    {
      hide PutAll, Exceeds, LabelBytes;
      tables := tables[..|tables| - 1];
    }

    method RenderBlock(t: Tree, ghost v: View)
      requires Valid() && Tracks(v) && !err
      modifies this, output
      ensures Valid() && Tracks(PushBlockBreak(Inside(TheSetting(), PushBlockBreak(v), t)))
      ensures Restored(old(Now()), Now())
      decreases t, 0, 1
    {
      hide PutAll, Exceeds, LabelBytes, ViewChildren, PushBlockBreak;
      AppendBlockBreak(v);
      RenderChildren(t.kids, Some(t.data), PushBlockBreak(v));
      AppendBlockBreak(Inside(TheSetting(), PushBlockBreak(v), t));
    }

    method RenderTableRow(t: Tree, ghost v: View)
      requires Valid() && Tracks(v) && !err
      modifies this, output
      ensures Valid() && Tracks(ViewTableRow(TheSetting(), v, t))
      ensures Restored(old(Now()), Now())
      decreases t, 1, 0
    {
      hide PutAll, Exceeds, LabelBytes, ViewChildren, PushBlockBreak, OpenRow, CloseRow;
      if |tables| == 0 {
        RenderBlock(t, v);
        return;
      }
      BeginRow(v);
      RenderChildren(t.kids, Some(t.data), OpenRow(v));
      EndRow(Inside(TheSetting(), OpenRow(v), t));
    }

    method BeginRow(ghost v: View)
      requires Valid() && Tracks(v) && !err && |tables| > 0
      modifies this`err, this`previous, this`hasPrevious, this`written, this`linePrefix, this`tables, output
      ensures Valid() && Tracks(OpenRow(v)) && Restored(old(Now()), Now())
    {
      hide PutAll, Exceeds, LabelBytes, PushBlockBreak, PushRaw, Restored;
      AppendBlockBreak(v);
      tables := tables[|tables| - 1 := Table(true, 0)];
      BlockBreakKeeps(v);
      RawKeepsTables(PushBlockBreak(v), "| ", tables);
      AppendRaw("| ", PushBlockBreak(v).(tables := tables));
      linePrefix := true;
      SetTableRestored(old(Now()), Now(), Table(true, 0));
    }

    method EndRow(ghost v: View)
      requires Valid() && Tracks(v) && |tables| > 0
      modifies this`err, this`previous, this`hasPrevious, this`written, this`linePrefix, this`tables, output
      ensures Valid() && Tracks(CloseRow(v)) && (old(err) ==> err) && Restored(old(Now()), Now())
    {
      hide PutAll, Exceeds, LabelBytes, PushRaw, PushBreak;
      AppendRaw(" |", v);
      tables := tables[|tables| - 1 := tables[|tables| - 1].(inRow := false)];
      ghost var w := PushRaw(v, " |");
      AppendBreak(if w.tables == [] then w
                  else w.(tables := SetTable(w.tables, w.tables[|w.tables| - 1].(inRow := false))));
    }

    method RenderTableCell(t: Tree, ghost v: View)
      requires Valid() && Tracks(v) && !err
      modifies this, output
      ensures Valid() && Tracks(ViewTableCell(TheSetting(), v, t))
      ensures Restored(old(Now()), Now())
      decreases t, 1, 0
    {
      hide PutAll, Exceeds, LabelBytes, ViewChildren, PushBlockBreak, OpenCell;
      if |tables| == 0 || !tables[|tables| - 1].inRow {
        RenderBlock(t, v);
        return;
      }
      ghost var start := Now();
      BeginCell(v);
      RenderChildren(t.kids, Some(t.data), OpenCell(v));
      tableCellDepth := tableCellDepth - 1;
    }

    method BeginCell(ghost v: View)
      requires Valid() && Tracks(v) && !err && |tables| > 0
      modifies this`err, this`previous, this`hasPrevious, this`written, this`linePrefix, this`tables
      modifies this`tableCellDepth, output
      ensures Valid() && Tracks(OpenCell(v)) && tableCellDepth == old(tableCellDepth) + 1
      ensures Restored(old(Now()), Now().(cell := tableCellDepth - 1))
    {
      hide PutAll, Exceeds, LabelBytes, PushRaw, Restored;
      var row := tables[|tables| - 1];
      if row.cellCount > 0 {
        AppendRaw(" | ", v);
        linePrefix := true;
        RawKeepsTables(v, " | ", v.tables);
      }
      tables := tables[|tables| - 1 := row.(cellCount := row.cellCount + 1)];
      tableCellDepth := tableCellDepth + 1;
      SetTableRestored(old(Now()), Now().(cell := tableCellDepth - 1), row.(cellCount := row.cellCount + 1));
    }
  }

  lemma ParagraphBreakKeeps(s: Setting, v: View)
    ensures PushParagraphBreak(s, v).pre == v.pre
  {
  }

  lemma BlockBreakKeeps(v: View)
    ensures PushBlockBreak(v).lists == v.lists && PushBlockBreak(v).tables == v.tables
    ensures PushBlockBreak(v).(lists := v.lists) == PushBlockBreak(v)
  {
  }

  lemma RawKeeps(v: View, value: string, lists: seq<List>)
    ensures PushRaw(v.(lists := lists), value) == PushRaw(v, value).(lists := lists)
  {
  }

  lemma RawKeepsTables(v: View, value: string, tables: seq<Table>)
    ensures PushRaw(v.(tables := tables), value) == PushRaw(v, value).(tables := tables)
  {
  }

  lemma ExceedsIs(maximumBytes: nat, legacy: bool, tokens: seq<Token>, labels: nat)
    ensures Exceeds(maximumBytes, legacy, tokens, labels)
            <==> maximumBytes > 0 && (labels > 4 * maximumBytes || Bytes(Written(legacy, tokens)) > maximumBytes)
  {
  }

  // ----- rendering a whole tree

  function TrimNewlines(s: string): string
    decreases |s|
  {
    if s == "" then ""
    else if s[0] == '\n' then TrimNewlines(s[1..])
    else if s[|s| - 1] == '\n' then TrimNewlines(s[..|s| - 1])
    else s
  }

  // Only line breaks go, and none is left at either end.
  lemma {:induction false} OnlyNewlinesAreTrimmed(s: string) returns (before: nat, after: nat)
    ensures before <= after <= |s| && TrimNewlines(s) == s[before..after]
    ensures forall i :: 0 <= i < before || after <= i < |s| ==> s[i] == '\n'
    ensures TrimNewlines(s) != "" ==> s[before] != '\n' && s[after - 1] != '\n'
    decreases |s|
  {
    if s == "" {
      before, after := 0, 0;
    } else if s[0] == '\n' {
      before, after := OnlyNewlinesAreTrimmed(s[1..]);
      before, after := before + 1, after + 1;
    } else if s[|s| - 1] == '\n' {
      before, after := OnlyNewlinesAreTrimmed(s[..|s| - 1]);
    } else {
      before, after := 0, |s|;
    }
  }

  lemma {:induction false} TrimmedBytes(s: string)
    ensures Bytes(TrimNewlines(s)) <= Bytes(s)
    decreases |s|
  {
    if s != "" {
      if s[0] == '\n' {
        TrimmedBytes(s[1..]);
      } else if s[|s| - 1] == '\n' {
        TrimmedBytes(s[..|s| - 1]);
        BytesOfPrefix(s[..|s| - 1], s);
      }
    }
  }

  lemma {:induction false} TrimmedLetters(s: string)
    ensures Letters(TrimNewlines(s)) == Letters(s)
    decreases |s|
  {
    if s != "" {
      if s[0] == '\n' {
        TrimmedLetters(s[1..]);
      } else if s[|s| - 1] == '\n' {
        var rest := s[..|s| - 1];
        TrimmedLetters(rest);
        LettersConcat(rest, "\n");
        assert rest + "\n" == s && "\n"[1..] == "";
      }
    }
  }

  // What a tree is rendered as, without limits.
  function PlainText(s: Setting, t: Tree): string {
    TrimNewlines(Written(s.legacy, ViewNode(s, BLANK, t, None).tokens))
  }

  // What was said is in what was written.
  lemma TextIsWritten(m: Mode, tokens: seq<Token>)
    ensures !PutAll(m, EMPTY, tokens).failed ==> Subsequence(Said(tokens), Letters(PutAll(m, EMPTY, tokens).out))
  {
    var out := PutAll(m, EMPTY, tokens).out;
    OutputHasEveryToken(m, EMPTY, tokens);
    SaidIsWritten(tokens);
    LettersOfNonSpace(out);
    assert "" + TokensText(tokens) == TokensText(tokens);
  }

  // The rendering of a tree has every letter of its text, in order.
  lemma PlainTextHasEveryLetter(s: Setting, t: Tree)
    ensures Subsequence(Letters(InnerText(s.policy, t, None, false)), Letters(PlainText(s, t)))
  {
    hide PutAll, InnerText, Items, Letters, Said, TrimNewlines, ViewNode;
    var v := ViewNode(s, BLANK, t, None);
    NodeRenders(s, BLANK, t, None);
    NothingSaidAtFirst();
    assert "" + Letters(InnerText(s.policy, t, None, false)) == Letters(InnerText(s.policy, t, None, false));
    MoreTokensMoreOutput(s.legacy, v.tokens, v.tokens);
    TextIsWritten(Mode(0, s.legacy), v.tokens);
    TrimmedLetters(Written(s.legacy, v.tokens));
  }

  lemma NothingSaidAtFirst()
    ensures Said(BLANK.tokens) == "" && !Verbatim(BLANK)
  {
  }

  // A rendering that is not cancelled succeeds exactly when the tree needs no
  // more than the limits allow, and then is what it would be without limits.
  method RenderPlainText(policy: Policy, redundant: Redundant, t: Tree, maximumBytes: nat, legacy: bool,
                         ctx: Context)
    returns (ok: bool, text: string, ghost cancelled: bool)
    ensures cancelled ==> ctx.cancellable
    ensures
      var v := ViewNode(Setting(policy, redundant, legacy), BLANK, t, None);
      ok <==> !cancelled && !Exceeds(maximumBytes, legacy, v.tokens, v.labels)
    ensures ok ==> text == PlainText(Setting(policy, redundant, legacy), t)
    ensures ok && maximumBytes > 0 ==> Bytes(text) <= maximumBytes
  {
    hide PutAll, LabelBytes, Bytes, TrimNewlines, ViewNode;
    var renderer := new Renderer(policy, redundant, maximumBytes, legacy, ctx);
    renderer.RenderNode(t, None, BLANK);
    cancelled := renderer.cancelled;
    if renderer.err {
      return false, "", cancelled;
    }
    WriterExceeds(maximumBytes, legacy, renderer.written);
    if maximumBytes > 0 {
      LimitedOutputIsPrefix(maximumBytes, legacy, renderer.written);
    }
    text := TrimNewlines(renderer.output.output);
    TrimmedBytes(renderer.output.output);
    var stopped: bool := *;
    if stopped && ctx.cancellable {
      return false, text, true;
    }
    ok := true;
  }
}
