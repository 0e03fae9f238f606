// How tables are written out, for all texts of their cells.
module PlainTables {
  import opened Html
  import opened PlainForms
  import opened PlainLists
  import opened PlainTextLayout
  import opened PlainTextOutput
  import opened PlainTextRenderer
  import opened PlainTextRendering
  import opened Sequences
  import opened Texts
  import opened Wrappers

  function RowNodes(n: Node, rows: seq<seq<string>>): Forest {
    if rows == [] then [] else [ElementNode(n, "tr", Each(n, "td", rows[0]))] + RowNodes(n, rows[1..])
  }

  function CellTokens(count: nat, cells: seq<string>): seq<Token>
    decreases cells
  {
    if cells == [] then []
    else (if count > 0 then [Raw(" | ")] else []) + [Plain(EscapePipes(cells[0]))] + CellTokens(count + 1, cells[1..])
  }

  function RowTokens(rows: seq<seq<string>>): seq<Token> {
    if rows == [] then []
    else [Raw("| ")] + (CellTokens(0, rows[0]) + ([Raw(" |"), BREAK] + RowTokens(rows[1..])))
  }

  function Escaped(cells: seq<string>): (r: seq<string>)
    ensures |r| == |cells|
  {
    if cells == [] then [] else [EscapePipes(cells[0])] + Escaped(cells[1..])
  }

  function RowLine(cells: seq<string>): string {
    "| " + (Joined(Escaped(cells), " | ") + " |")
  }

  function RowLines(rows: seq<seq<string>>): seq<string> {
    if rows == [] then [] else [RowLine(rows[0])] + RowLines(rows[1..])
  }

  ghost predicate AreRows(rows: seq<seq<string>>) {
    forall i :: 0 <= i < |rows| ==> AreLines(rows[i])
  }

  // A backslash in front of a bar is left out.
  function Unescaped(text: string): string {
    if text == "" then ""
    else if text[0] == '\\' && |text| > 1 && text[1] == '|' then "|" + Unescaped(text[2..])
    else [text[0]] + Unescaped(text[1..])
  }

  lemma EscapedNext(text: string)
    ensures EscapePipes("") == ""
    ensures text != "" ==>
              EscapePipes(text) == (if text[0] == '|' then "\\|" else [text[0]]) + EscapePipes(text[1..])
  {
  }

  // An escaped cell reads as its text, and no bar in it stands alone.
  lemma {:induction false} EscapingIsExact(text: string)
    ensures
      var r := EscapePipes(text);
      && Unescaped(r) == text && (r != "" ==> r[0] != '|')
      && forall i :: 0 <= i < |r| && r[i] == '|' ==> i > 0 && r[i - 1] == '\\'
    decreases text
  {
    hide EscapePipes;
    EscapedNext(text);
    if text != "" {
      var head, rest := if text[0] == '|' then "\\|" else [text[0]], EscapePipes(text[1..]);
      EscapingIsExact(text[1..]);
      assert (head + rest)[|head|..] == rest;
      assert forall i :: |head| <= i < |head + rest| ==> (head + rest)[i] == rest[i - |head|];
    }
  }

  lemma {:induction false} EscapedIsRest(text: string)
    requires IsRest(text)
    ensures IsRest(EscapePipes(text))
    ensures text != "" ==> EscapePipes(text) != "" && (!IsSpace(text[0]) ==> !IsSpace(EscapePipes(text)[0]))
    decreases text
  {
    if text != "" {
      RestOfRest(text);
      EscapedIsRest(text[1..]);
      var head, rest := if text[0] == '|' then "\\|" else [text[0]], EscapePipes(text[1..]);
      assert forall i :: |head| <= i < |head + rest| ==> (head + rest)[i] == rest[i - |head|];
    }
  }

  lemma EscapedIsLine(text: string)
    requires IsLine(text)
    ensures IsLine(EscapePipes(text))
  {
    hide IsSpace;
    EscapedIsRest(text);
  }

  // In a row of one table and in nothing else.
  predicate InOneRow(v: View, count: nat) {
    v.links == [] && v.lists == [] && v.tables == [Table(true, count)] && v.pre == 0 && v.code == 0 && v.cell == 0
  }

  lemma CellIsViewed(s: Setting, v: View, n: Node, text: string, count: nat, parent: Option<string>) returns (w: View)
    requires KnowsNames(s.policy) && IsLine(text) && InOneRow(v, count)
    ensures w == ViewNode(s, v, ElementNode(n, "td", [TextNode(n, text)]), parent)
    ensures w == v.(tokens := v.tokens + (if count > 0 then [Raw(" | ")] else []) + [Plain(EscapePipes(text))],
                    tables := [Table(true, count + 1)], prefix := false)
  {
    hide IsLine, EscapePipes, DropsPlainText;
    var t := ElementNode(n, "td", [TextNode(n, text)]);
    w := ViewNode(s, v, t, parent);
    ContainersAreKept();
    ElementIsViewed(s, v, t, "td", parent);
    assert ViewContainer(s, v, t, "td") == ViewTableCell(s, v, t);
    var x := OpenCell(v);
    assert x.tables == [Table(true, count + 1)] && x.cell == 1;
    assert x.tokens == v.tokens + if count > 0 then [Raw(" | ")] else [];
    CellTextInside(s, x, n, t, text);
  }

  lemma CellTextInside(s: Setting, v: View, n: Node, t: Tree, text: string)
    requires t.kids == [TextNode(n, text)] && IsLine(text)
    requires v.links == [] && v.pre == 0 && v.code == 0 && v.cell == 1
    ensures Inside(s, v, t) == Push(v, Plain(EscapePipes(text))).(prefix := false)
  {
    EscapedIsLine(text);
    assert text[0] in text && !AllSpace(text);
    assert EscapePipes(text)[0] in EscapePipes(text) && !AllSpace(EscapePipes(text));
    assert Extended(v.links, text) == v.links;
    assert PushText(s, v, text) == Push(v, Plain(EscapePipes(text))).(prefix := false);
    assert t.kids[0] == TextNode(n, text) && t.kids[1..] == [];
    assert ViewNode(s, v, t.kids[0], Some(t.data)) == PushText(s, v, text);
    assert ViewChildren(s, PushText(s, v, text), [], Some(t.data)) == PushText(s, v, text);
  }

  lemma CellsNext(n: Node, count: nat, cells: seq<string>)
    requires cells != []
    ensures
      && CellTokens(count, cells)
         == ((if count > 0 then [Raw(" | ")] else []) + [Plain(EscapePipes(cells[0]))])
            + CellTokens(count + 1, cells[1..])
      && Each(n, "td", cells)[0] == ElementNode(n, "td", [TextNode(n, cells[0])])
      && Each(n, "td", cells)[1..] == Each(n, "td", cells[1..])
  {
    hide EscapePipes;
  }

  lemma {:induction false} CellsAreViewed(s: Setting, v: View, n: Node, cells: seq<string>, count: nat,
                                          parent: Option<string>)
    requires KnowsNames(s.policy) && AreLines(cells) && InOneRow(v, count)
    ensures
      var w := ViewChildren(s, v, Each(n, "td", cells), parent);
      w == v.(tokens := v.tokens + CellTokens(count, cells), tables := [Table(true, count + |cells|)],
              prefix := w.prefix)
    decreases cells
  {
    hide IsLine, EscapePipes, ViewNode, ElementNode, TextNode;
    if cells == [] {
      assert v.tokens + [] == v.tokens;
    } else {
      hide CellTokens;
      var w := CellIsViewed(s, v, n, cells[0], count, parent);
      assert AreLines(cells[1..]);
      CellsAreViewed(s, w, n, cells[1..], count + 1, parent);
      CellsNext(n, count, cells);
      var bar := if count > 0 then [Raw(" | ")] else [];
      Associate(v.tokens, bar, [Plain(EscapePipes(cells[0]))]);
      Associate(v.tokens, bar + [Plain(EscapePipes(cells[0]))], CellTokens(count + 1, cells[1..]));
    }
  }

  // In one table between rows, at the start of a line.
  predicate InTable(v: View) {
    && v.links == [] && v.lists == [] && |v.tables| == 1 && !v.tables[0].inRow
    && v.pre == 0 && v.code == 0 && v.cell == 0 && !v.prefix && AfterBreak(v)
  }

  lemma RowIsViewed(s: Setting, v: View, n: Node, cells: seq<string>, parent: Option<string>) returns (w: View)
    requires KnowsNames(s.policy) && AreLines(cells) && InTable(v)
    ensures w == ViewNode(s, v, ElementNode(n, "tr", Each(n, "td", cells)), parent)
    ensures w == v.(tokens := v.tokens + ([Raw("| ")] + (CellTokens(0, cells) + [Raw(" |"), BREAK])),
                    tables := w.tables)
    ensures InTable(w)
  {
    hide IsLine, CellTokens, DropsPlainText, ViewChildren;
    var t := ElementNode(n, "tr", Each(n, "td", cells));
    w := ViewNode(s, v, t, parent);
    ContainersAreKept();
    ElementIsViewed(s, v, t, "tr", parent);
    assert ViewContainer(s, v, t, "tr") == ViewTableRow(s, v, t);
    var x := OpenRow(v);
    assert x.tables == [Table(true, 0)] && x.tokens == v.tokens + [Raw("| ")];
    CellsAreViewed(s, x, n, cells, 0, Some(t.data));
    var y := Inside(s, x, t);
    var z := CloseRow(y);
    assert z.tables == [Table(false, |cells|)];
    assert z.tokens == (y.tokens + [Raw(" |")]) + [BREAK];
    assert ((v.tokens + [Raw("| ")]) + CellTokens(0, cells) + [Raw(" |")]) + [BREAK]
        == v.tokens + ([Raw("| ")] + (CellTokens(0, cells) + [Raw(" |"), BREAK]));
  }

  lemma {:induction false} RowsAreViewed(s: Setting, v: View, n: Node, rows: seq<seq<string>>, parent: Option<string>)
    requires KnowsNames(s.policy) && AreRows(rows) && InTable(v)
    ensures
      var w := ViewChildren(s, v, RowNodes(n, rows), parent);
      w == v.(tokens := v.tokens + RowTokens(rows), tables := w.tables) && InTable(w)
    decreases rows
  {
    hide IsLine, AreLines, RowTokens, InTable, CellTokens, ViewNode;
    RowTokensNext(rows);
    if rows == [] {
      assert v.tokens + [] == v.tokens;
    } else {
      var w := RowIsViewed(s, v, n, rows[0], parent);
      RowsAreViewed(s, w, n, rows[1..], parent);
      RowNodesNext(n, rows);
      Associate(v.tokens, [Raw("| ")] + (CellTokens(0, rows[0]) + [Raw(" |"), BREAK]), RowTokens(rows[1..]));
    }
  }

  lemma RowNodesNext(n: Node, rows: seq<seq<string>>)
    requires rows != []
    ensures
      var nodes := RowNodes(n, rows);
      && nodes != [] && nodes[0] == ElementNode(n, "tr", Each(n, "td", rows[0])) && nodes[1..] == RowNodes(n, rows[1..])
  {
  }

  lemma RowTokensNext(rows: seq<seq<string>>)
    ensures rows == [] ==> RowTokens(rows) == []
    ensures rows != [] ==>
              RowTokens(rows) == ([Raw("| ")] + (CellTokens(0, rows[0]) + [Raw(" |"), BREAK])) + RowTokens(rows[1..])
  {
    hide CellTokens;
    if rows != [] {
      var cells, rest := CellTokens(0, rows[0]), RowTokens(rows[1..]);
      assert [Raw("| ")] + (cells + ([Raw(" |"), BREAK] + rest)) == ([Raw("| ")] + (cells + [Raw(" |"), BREAK])) + rest;
    }
  }

  function Bar(count: nat): string {
    if count > 0 then " | " else ""
  }

  lemma CellStands(legacy: bool, es: seq<Event>, out: string, count: nat, text: string)
    returns (tokens: seq<Token>, written: string)
    requires IsLine(text) && Stands(legacy, es, out, []) && out != ""
    ensures tokens == (if count > 0 then [Raw(" | ")] else []) + [Plain(text)]
    ensures written == out + Bar(count) + text && Stands(legacy, es + Events(tokens), written, [])
  {
    hide Stands, IsLine;
    if count > 0 {
      tokens := [Raw(" | "), Plain(text)];
      MarkStands(legacy, es, out, [], " | ");
      assert out + Between(out, []) + " | " == out + " | ";
      TextStands(legacy, es + EventsOf(Raw(" | ")), out + " | ", [], text);
      EventsOfTwo(es, Raw(" | "), Plain(text));
      written := out + " | " + Between(out + " | ", []) + text;
    } else {
      tokens := [Plain(text)];
      TextStands(legacy, es, out, [], text);
      EventsOfOne(es, Plain(text));
      written := out + Between(out, []) + text;
    }
  }

  lemma {:induction false} CellsStand(legacy: bool, es: seq<Event>, out: string, count: nat, cells: seq<string>)
    requires AreLines(cells) && Stands(legacy, es, out, []) && out != ""
    ensures
      var bar := if cells != [] then Bar(count) else "";
      Stands(legacy, es + Events(CellTokens(count, cells)), out + (bar + Joined(Escaped(cells), " | ")), [])
    decreases cells
  {
    hide Stands, IsLine, EscapePipes;
    if cells == [] {
      assert es + Events([]) == es && out + ("" + "") == out;
    } else {
      EscapedIsLine(cells[0]);
      assert AreLines(cells[1..]);
      var tokens, written := CellStands(legacy, es, out, count, EscapePipes(cells[0]));
      CellsStand(legacy, es + Events(tokens), written, count + 1, cells[1..]);
      EventsNext(es, tokens, CellTokens(count + 1, cells[1..]));
      JoinedCells(out, count, cells);
    }
  }

  lemma JoinedCells(out: string, count: nat, cells: seq<string>)
    requires cells != []
    ensures
      (out + Bar(count) + EscapePipes(cells[0]))
      + ((if cells[1..] != [] then Bar(count + 1) else "") + Joined(Escaped(cells[1..]), " | "))
      == out + (Bar(count) + Joined(Escaped(cells), " | "))
  {
    hide EscapePipes;
    assert Escaped(cells)[1..] == Escaped(cells[1..]) && Escaped(cells)[0] == EscapePipes(cells[0]);
    JoinedNext(out, Bar(count), Escaped(cells), " | ");
    NothingBetween(cells[1..]);
  }

  lemma NothingBetween(cells: seq<string>)
    ensures (if cells == [] then "" else " | " + Joined(Escaped(cells), " | "))
         == (if cells != [] then " | " else "") + Joined(Escaped(cells), " | ")
  {
  }

  lemma RowStands(legacy: bool, es: seq<Event>, out: string, cells: seq<string>) returns (written: string)
    requires AreLines(cells) && Stands(legacy, es, out, [Line])
    ensures written == out + Between(out, [Line]) + RowLine(cells) && written != ""
    ensures Stands(legacy, es + Events([Raw("| ")] + (CellTokens(0, cells) + [Raw(" |"), BREAK])), written, [Line])
  {
    hide Stands, AreLines, CellTokens, Escaped, Joined;
    var begun := out + Between(out, [Line]) + "| ";
    var a := es + EventsOf(Raw("| "));
    MarkStands(legacy, es, out, [Line], "| ");
    CellsStand(legacy, a, begun, 0, cells);
    var inner := Joined(Escaped(cells), " | ");
    assert (if cells != [] then Bar(0) else "") + inner == inner;
    var b := a + Events(CellTokens(0, cells));
    MarkStands(legacy, b, begun + inner, [], " |");
    written := begun + inner + Between(begun + inner, []) + " |";
    BreakStands(legacy, b + EventsOf(Raw(" |")), written, BREAK);
    EventsOfTwo(b, Raw(" |"), BREAK);
    EventsNext(a, CellTokens(0, cells), [Raw(" |"), BREAK]);
    EventsOfOne(es, Raw("| "));
    EventsNext(es, [Raw("| ")], CellTokens(0, cells) + [Raw(" |"), BREAK]);
    assert written == out + Between(out, [Line]) + ("| " + (inner + " |"));
  }

  lemma {:induction false} RowsStand(legacy: bool, es: seq<Event>, out: string, rows: seq<seq<string>>)
    requires AreRows(rows) && Stands(legacy, es, out, [Line])
    ensures
      var all := out + if rows == [] then "" else Between(out, [Line]) + Joined(RowLines(rows), "\n");
      Stands(legacy, es + Events(RowTokens(rows)), all, [Line])
    decreases rows
  {
    hide Stands, AreLines, RowTokens, CellTokens, RowLine;
    RowTokensNext(rows);
    if rows == [] {
      assert es + Events([]) == es && out + "" == out;
    } else {
      var row := [Raw("| ")] + (CellTokens(0, rows[0]) + [Raw(" |"), BREAK]);
      var written := RowStands(legacy, es, out, rows[0]);
      RowsStand(legacy, es + Events(row), written, rows[1..]);
      EventsNext(es, row, RowTokens(rows[1..]));
      RowLinesNext(rows);
      JoinedNext(out, Between(out, [Line]), RowLines(rows), "\n");
    }
  }

  lemma RowLinesNext(rows: seq<seq<string>>)
    requires rows != []
    ensures
      var lines := RowLines(rows);
      && lines != [] && lines[0] == RowLine(rows[0]) && lines[1..] == RowLines(rows[1..])
      && (lines[1..] == [] <==> rows[1..] == [])
  {
  }

  lemma {:induction false} RowLinesEnd(rows: seq<seq<string>>)
    ensures
      var all := Joined(RowLines(rows), "\n");
      all != "" ==> all[0] != '\n' && all[|all| - 1] != '\n'
    decreases rows
  {
    hide Escaped;
    if rows != [] {
      RowLinesEnd(rows[1..]);
      RowLinesNext(rows);
      if rows[1..] != [] {
        RowLinesNext(rows[1..]);
      }
    }
  }

  lemma {:induction false} RowsEndInBreak(rows: seq<seq<string>>)
    requires rows != []
    ensures
      var tokens := RowTokens(rows);
      tokens != [] && tokens[|tokens| - 1] == BREAK
    decreases rows
  {
    RowTokensNext(rows);
    hide RowTokens, CellTokens;
    RowTokensNext(rows[1..]);
    if |rows| > 1 {
      RowsEndInBreak(rows[1..]);
    }
  }

  function TableNode(n: Node, rows: seq<seq<string>>): Tree {
    ElementNode(n, "table", RowNodes(n, rows))
  }

  lemma TableIsViewed(s: Setting, n: Node, rows: seq<seq<string>>)
    requires KnowsNames(s.policy) && AreRows(rows)
    ensures
      ViewNode(s, BLANK, TableNode(n, rows), None).tokens
      == [if s.legacy then BREAK else PARAGRAPH]
         + (RowTokens(rows) + if s.legacy || rows == [] then [] else [PARAGRAPH])
  {
    hide AreLines, PushListBreak, RowTokens, DropsPlainText, ViewChildren;
    var t, first := TableNode(n, rows), if s.legacy then BREAK else PARAGRAPH;
    ContainersAreKept();
    ElementIsViewed(s, BLANK, t, "table", None);
    assert ViewContainer(s, BLANK, t, "table") == ViewTable(s, BLANK, t);
    ListBreaks(s, BLANK);
    var v := Push(BLANK, first).(tables := [Table(false, 0)]);
    assert v.tokens[|v.tokens| - 1] == first && [] + [Table(false, 0)] == [Table(false, 0)];
    RowsAreViewed(s, v, n, rows, Some(t.data));
    var inner := Inside(s, v, t);
    var w := inner.(tables := DropLast(inner.tables));
    ListBreaks(s, w);
    assert [] + [first] == [first];
    RowTokensNext(rows);
    if rows != [] {
      RowsEndInBreak(rows);
      assert w.tokens[|w.tokens| - 1] == BREAK;
      Associate([first], RowTokens(rows), if s.legacy then [] else [PARAGRAPH]);
    } else {
      assert w.tokens == [first] + [] == [first] + ([] + []);
    }
  }

  // A table has a row on each line, with bars around and between its cells;
  // bars inside a cell are escaped.
  lemma TablesAreWritten(s: Setting, n: Node, rows: seq<seq<string>>)
    requires KnowsNames(s.policy) && AreRows(rows)
    ensures PlainText(s, TableNode(n, rows)) == Joined(RowLines(rows), "\n")
  {
    hide AreRows, Stands, Joined, TrimNewlines, Written, ViewNode, RowTokens, RowLines;
    var first := if s.legacy then BREAK else PARAGRAPH;
    var all := Joined(RowLines(rows), "\n");
    TableIsViewed(s, n, rows);
    StartStands(s.legacy, first);
    RowsStand(s.legacy, EventsOf(first), "", rows);
    RowLinesEnd(rows);
    NoRows();
    assert "" + ("" + all) == all;
    FormWithBreakIsWritten(s.legacy, first, RowTokens(rows), if s.legacy || rows == [] then [] else [PARAGRAPH], all,
                           [Line]);
  }

  lemma NoRows()
    ensures Joined(RowLines([]), "\n") == ""
  {
  }
}
