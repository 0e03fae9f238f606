// Fitting the columns of a table into a terminal.
module Table {
  import opened DisplayWidth
  import opened Wrappers

  const GAP := 2

  function Sum(values: seq<int>): int {
    if values == [] then 0 else values[0] + Sum(values[1..])
  }

  function Min(a: int, b: int): int {
    if a < b then a else b
  }

  function Max(a: int, b: int): int {
    if a < b then b else a
  }

  function Floors(start: seq<int>, minimums: seq<int>): (r: seq<int>)
    requires |start| == |minimums|
    ensures |r| == |start|
  {
    seq(|start|, i requires 0 <= i < |start| => Min(start[i], minimums[i]))
  }

  lemma {:induction false} SumUpdate(s: seq<int>, i: nat, v: int)
    requires i < |s|
    ensures Sum(s[i := v]) == Sum(s) - s[i] + v
  {
    if i > 0 {
      assert s[i := v][1..] == s[1..][i - 1 := v];
      SumUpdate(s[1..], i - 1, v);
    } else {
      assert s[0 := v][1..] == s[1..];
    }
  }

  lemma {:induction false} SumMonotone(a: seq<int>, b: seq<int>)
    requires |a| == |b| && forall i :: 0 <= i < |a| ==> a[i] <= b[i]
    ensures Sum(a) <= Sum(b)
    ensures Sum(a) == Sum(b) ==> a == b
  {
    if a != [] {
      SumMonotone(a[1..], b[1..]);
      assert a == [a[0]] + a[1..] && b == [b[0]] + b[1..];
    }
  }

  method SumWidths(values: array<int>) returns (total: int)
    ensures total == Sum(values[..])
  {
    total := 0;
    assert values[..][0..] == values[..];
    for i := 0 to values.Length
      invariant total + Sum(values[..][i..]) == Sum(values[..])
    {
      assert values[..][i..][1..] == values[..][i + 1..];
      total := total + values[i];
    }
  }

  // `now` comes from `start` by taking columns off the widest ones first: no
  // column below its floor, no more than was needed, and no shrunk column
  // narrower by more than one than a column that could still be shrunk, the
  // leftmost of equals going first.
  ghost predicate WidestFirst(start: seq<int>, minimums: seq<int>, now: seq<int>) {
    && |start| == |minimums| == |now|
    && (forall i :: 0 <= i < |now| ==> Min(start[i], minimums[i]) <= now[i] <= start[i])
    && (forall i, j :: 0 <= i < |now| && 0 <= j < |now| && now[i] < start[i] && now[j] > minimums[j] ==>
          now[j] <= now[i] + if j < i then 0 else 1)
  }

  lemma NoExchange(start: seq<int>, minimums: seq<int>, a: seq<int>, b: seq<int>, i: nat, j: nat)
    requires WidestFirst(start, minimums, a) && WidestFirst(start, minimums, b)
    requires i < |a| && j < |a| && a[i] < b[i]
    ensures a[j] <= b[j]
  {
  }

  // These conditions and the total leave no choice.
  lemma WidestFirstIsDetermined(start: seq<int>, minimums: seq<int>, a: seq<int>, b: seq<int>)
    requires WidestFirst(start, minimums, a) && WidestFirst(start, minimums, b)
    requires Sum(a) == Sum(b)
    ensures a == b
  {
    if i: nat :| i < |a| && a[i] < b[i] {
      forall j: nat | j < |a| ensures a[j] <= b[j] {
        NoExchange(start, minimums, a, b, i, j);
      }
      SumMonotone(a, b);
    } else {
      SumMonotone(b, a);
    }
  }

  ghost predicate IsWidest(widths: seq<int>, minimums: seq<int>, w: nat) {
    && |widths| == |minimums| && w < |widths| && widths[w] > minimums[w]
    && (forall j :: 0 <= j < |widths| && widths[j] > minimums[j] ==> widths[j] <= widths[w])
    && (forall j :: 0 <= j < w && widths[j] > minimums[j] ==> widths[j] < widths[w])
  }

  lemma ShrinkingWidestKeepsOrder(start: seq<int>, minimums: seq<int>, now: seq<int>, w: nat)
    requires WidestFirst(start, minimums, now) && IsWidest(now, minimums, w)
    ensures WidestFirst(start, minimums, now[w := now[w] - 1])
    ensures Sum(now[w := now[w] - 1]) == Sum(now) - 1
  {
    SumUpdate(now, w, now[w] - 1);
  }

  lemma StartIsWidestFirst(start: seq<int>, minimums: seq<int>)
    requires |start| == |minimums|
    ensures WidestFirst(start, minimums, start)
  {
  }

  lemma FloorsAreLeast(start: seq<int>, minimums: seq<int>, now: seq<int>)
    requires WidestFirst(start, minimums, now)
    ensures Sum(Floors(start, minimums)) <= Sum(now) <= Sum(start)
    ensures (forall i :: 0 <= i < |now| ==> now[i] <= minimums[i]) ==> now == Floors(start, minimums)
  {
    SumMonotone(Floors(start, minimums), now);
    SumMonotone(now, start);
  }

  // The first of the widest columns that may shrink, or -1 when none may.
  method FindWidest(widths: array<int>, minimums: array<int>) returns (widest: int)
    requires widths.Length == minimums.Length
    ensures widest >= 0 ==> widest < widths.Length && IsWidest(widths[..], minimums[..], widest)
    ensures widest < 0 ==> forall j :: 0 <= j < widths.Length ==> widths[j] <= minimums[j]
  {
    widest := -1;
    for index := 0 to widths.Length
      invariant widest < index
      invariant widest >= 0 ==> IsWidest(widths[..index], minimums[..index], widest)
      invariant widest < 0 ==> forall j :: 0 <= j < index ==> widths[j] <= minimums[j]
    {
      if widths[index] > minimums[index] && (widest < 0 || widths[index] > widths[widest]) {
        widest := index;
      }
    }
    assert widths[..widths.Length] == widths[..] && minimums[..minimums.Length] == minimums[..];
  }

  method ShrinkTableWidths(widths: array<int>, minimums: array<int>, available: int)
    requires widths != minimums && widths.Length == minimums.Length
    modifies widths
    ensures WidestFirst(old(widths[..]), minimums[..], widths[..])
    ensures Sum(widths[..])
            == Min(Sum(old(widths[..])), Max(available, Sum(Floors(old(widths[..]), minimums[..]))))
  {
    hide WidestFirst, IsWidest, Floors, Sum;
    ghost var start, least := widths[..], minimums[..];
    StartIsWidestFirst(start, least);
    var total := SumWidths(widths);
    while total > available
      invariant total == Sum(widths[..])
      invariant WidestFirst(start, least, widths[..])
      invariant total == Sum(start) || total >= available
      decreases total - Sum(Floors(start, least))
    {
      FloorsAreLeast(start, least, widths[..]);
      var widest := FindWidest(widths, minimums);
      if widest < 0 {
        return;
      }
      ghost var after := widths[..][widest := widths[widest] - 1];
      ShrinkingWidestKeepsOrder(start, least, widths[..], widest);
      FloorsAreLeast(start, least, after);
      widths[widest] := widths[widest] - 1;
      assert widths[..] == after;
      total := SumWidths(widths);
    }
    FloorsAreLeast(start, least, widths[..]);
  }

  lemma {:induction false} SumOfOnes(s: seq<int>)
    requires forall i :: 0 <= i < |s| ==> s[i] <= 1
    ensures Sum(s) <= |s|
  {
    if s != [] {
      SumOfOnes(s[1..]);
    }
  }

  lemma FloorsOfOnes(start: seq<int>, minimums: seq<int>)
    requires |start| == |minimums| && forall i :: 0 <= i < |minimums| ==> minimums[i] == 1
    ensures Sum(Floors(start, minimums)) <= |start|
  {
    SumOfOnes(Floors(start, minimums));
  }

  ghost predicate KeepsOne(start: seq<int>, now: seq<int>) {
    |now| == |start| && forall i :: 0 <= i < |now| ==> Min(start[i], 1) <= now[i] <= start[i]
  }

  lemma ShrunkKeepsOne(start: seq<int>, minimums: seq<int>, now: seq<int>)
    requires WidestFirst(start, minimums, now) && forall i :: 0 <= i < |minimums| ==> minimums[i] >= 1
    ensures KeepsOne(start, now)
  {
  }

  function Available(columns: int, count: nat): int {
    (if columns <= 0 then 120 else columns) - GAP * (count - 1)
  }

  function HeaderMinimums(g: Glyphs, headers: seq<string>): (r: seq<int>)
    ensures |r| == |headers|
  {
    seq(|headers|, i requires 0 <= i < |headers| => Max(3, TextWidth(g, headers[i])))
  }

  // Fitting succeeds exactly when every column can have one character. Columns
  // only shrink, and keep their headers readable if that is possible at all.
  method FitTableWidths(g: Glyphs, widths: array<int>, headers: seq<string>, terminalColumns: int) returns (ok: bool)
    requires |headers| == widths.Length
    modifies widths
    ensures ok <==> Available(terminalColumns, widths.Length) >= widths.Length
    ensures ok ==> Sum(widths[..]) <= Available(terminalColumns, widths.Length)
    ensures !ok ==> widths[..] == old(widths[..])
    ensures KeepsOne(old(widths[..]), widths[..])
    ensures
      ok && Sum(Floors(old(widths[..]), HeaderMinimums(g, headers))) <= Available(terminalColumns, widths.Length) ==>
        && WidestFirst(old(widths[..]), HeaderMinimums(g, headers), widths[..])
        && Sum(widths[..]) == Min(Sum(old(widths[..])), Available(terminalColumns, widths.Length))
  {
    hide WidestFirst, Sum, Floors;
    ghost var start, mins := widths[..], HeaderMinimums(g, headers);
    var columns := terminalColumns;
    if columns <= 0 {
      columns := 120;
    }
    var available := columns - GAP * (widths.Length - 1);
    if available < widths.Length {
      return false;
    }
    var minimums := new int[widths.Length];
    for i := 0 to widths.Length
      invariant widths[..] == start
      invariant forall j :: 0 <= j < i ==> minimums[j] == mins[j]
    {
      var width := MeasureText(g, headers[i]);
      minimums[i] := Max(3, width);
    }
    assert minimums[..] == mins;
    ShrinkTableWidths(widths, minimums, available);
    ShrunkKeepsOne(start, mins, widths[..]);
    var total := SumWidths(widths);
    if total > available {
      ghost var first := widths[..];
      for i := 0 to widths.Length
        invariant widths[..] == first
        invariant forall j :: 0 <= j < i ==> minimums[j] == 1
      {
        minimums[i] := 1;
      }
      FloorsOfOnes(first, minimums[..]);
      ShrinkTableWidths(widths, minimums, available);
      ShrunkKeepsOne(first, minimums[..], widths[..]);
      total := SumWidths(widths);
    }
    return total <= available;
  }

  // ----- writing the table

  function Spaces(n: nat): string {
    seq(n, _ => ' ')
  }

  lemma {:induction false} SpacesWidth(g: Glyphs, s: Carry, n: nat)
    ensures WidthFrom(g, s, Spaces(n)) <= n
    decreases n
  {
    if n > 0 {
      assert Spaces(n)[1..] == Spaces(n - 1);
      SpacesWidth(g, CarryNext(g, s, ' '), n - 1);
    }
  }

  function Cell(g: Glyphs, row: seq<string>, i: nat): string {
    if i < |row| then g.oneLine(row[i]) else ""
  }

  // What is shown of the cells of a row in columns of these widths.
  ghost predicate AreFitted(g: Glyphs, row: seq<string>, widths: seq<int>, shown: seq<string>) {
    |shown| == |widths| && forall i :: 0 <= i < |shown| ==> IsFitted(g, Cell(g, row, i), widths[i], shown[i])
  }

  function Padding(g: Glyphs, text: string, width: int): string {
    Spaces(Max(0, width - TextWidth(g, text) + GAP))
  }

  // A row from column `i` on: every column but the last is filled up to its
  // width and the gap.
  ghost function Laid(g: Glyphs, shown: seq<string>, widths: seq<int>, i: nat): string
    requires i <= |widths| == |shown|
    decreases |widths| - i
  {
    if i == |widths| then ""
    else shown[i] + (if i < |widths| - 1 then Padding(g, shown[i], widths[i]) else "") + Laid(g, shown, widths, i + 1)
  }

  // The line that a row takes in a table with columns of these widths.
  ghost predicate IsRow(g: Glyphs, row: seq<string>, widths: seq<int>, line: string) {
    exists shown :: AreFitted(g, row, widths, shown) && line == Laid(g, shown, widths, 0)
  }

  ghost predicate CellsFit(g: Glyphs, row: seq<string>, widths: seq<int>) {
    forall i: nat :: i < |widths| ==> TextWidth(g, Cell(g, row, i)) <= widths[i]
  }

  function Cells(g: Glyphs, row: seq<string>, n: nat): seq<string> {
    seq(n, i requires 0 <= i < n => Cell(g, row, i))
  }

  // A row whose cells fit has them whole.
  lemma RowIsWhole(g: Glyphs, row: seq<string>, widths: seq<int>, line: string)
    requires IsRow(g, row, widths, line) && CellsFit(g, row, widths)
    ensures line == Laid(g, Cells(g, row, |widths|), widths, 0)
  {
    hide TextWidth, Laid;
    var shown :| AreFitted(g, row, widths, shown) && line == Laid(g, shown, widths, 0);
    assert shown == Cells(g, row, |widths|);
  }

  lemma SumFrom(s: seq<int>, i: nat)
    requires i < |s|
    ensures Sum(s[i..]) == s[i] + Sum(s[i + 1..])
  {
    assert s[i..][1..] == s[i + 1..];
  }

  lemma PaddingWidth(g: Glyphs, line: string, n: nat)
    ensures TextWidth(g, line + Spaces(n)) <= TextWidth(g, line) + n
  {
    SpacesWidth(g, FRESH, n);
    WidthIsSubadditive(g, line, Spaces(n));
  }

  lemma NothingLeft(g: Glyphs, widths: seq<int>)
    ensures Sum(widths[|widths|..]) == 0 && TextWidth(g, "") == 0
  {
  }

  // Writing column after column: `shown` are the columns written so far.
  ghost function Written(g: Glyphs, shown: seq<string>, widths: seq<int>): string
    requires |shown| <= |widths|
    decreases |shown|
  {
    if shown == [] then ""
    else
      var i := |shown| - 1;
      Written(g, shown[..i], widths) + shown[i] + if i < |widths| - 1 then Padding(g, shown[i], widths[i]) else ""
  }

  lemma WrittenNext(g: Glyphs, shown: seq<string>, widths: seq<int>, text: string)
    requires |shown| < |widths|
    ensures
      var i := |shown|;
      Written(g, shown + [text], widths)
      == Written(g, shown, widths) + text + if i < |widths| - 1 then Padding(g, text, widths[i]) else ""
  {
    assert (shown + [text])[..|shown|] == shown;
  }

  lemma {:induction false} WrittenIsLaid(g: Glyphs, shown: seq<string>, widths: seq<int>, i: nat)
    requires i <= |shown| == |widths|
    ensures Written(g, shown[..i], widths) + Laid(g, shown, widths, i) == Laid(g, shown, widths, 0)
    decreases i
  {
    hide Padding;
    if i > 0 {
      WrittenIsLaid(g, shown, widths, i - 1);
      assert shown[..i][..i - 1] == shown[..i - 1] && shown[..i][i - 1] == shown[i - 1];
      var text, padding := shown[i - 1], if i - 1 < |widths| - 1 then Padding(g, shown[i - 1], widths[i - 1]) else "";
      Regroup(Written(g, shown[..i - 1], widths), text, padding, Laid(g, shown, widths, i));
    } else {
      assert "" + Laid(g, shown, widths, 0) == Laid(g, shown, widths, 0);
    }
  }

  lemma Regroup(a: string, b: string, c: string, d: string)
    ensures (a + b + c) + d == a + (b + c + d)
  {
  }

  lemma WrittenRow(g: Glyphs, row: seq<string>, widths: seq<int>, shown: seq<string>)
    requires AreFitted(g, row, widths, shown)
    ensures IsRow(g, row, widths, Written(g, shown, widths))
  {
    hide AreFitted, Written;
    SameLength(g, row, widths, shown);
    WrittenIsLaid(g, shown, widths, |widths|);
    assert shown[..|widths|] == shown;
    assert Written(g, shown, widths) + "" == Written(g, shown, widths);
  }

  lemma SameLength(g: Glyphs, row: seq<string>, widths: seq<int>, shown: seq<string>)
    requires AreFitted(g, row, widths, shown)
    ensures |shown| == |widths|
  {
  }

  method WriteTableRow(g: Glyphs, row: seq<string>, widths: array<int>) returns (line: string)
    requires widths.Length > 0 && forall i :: 0 <= i < widths.Length ==> widths[i] >= 0
    ensures TextWidth(g, line) <= Sum(widths[..]) + GAP * (widths.Length - 1)
    ensures IsRow(g, row, widths[..], line)
  {
    hide TextWidth, Sum, Laid, Spaces, IsFitted, Written, IsRow;
    ghost var all, shown := widths[..], [];
    line := "";
    NothingLeft(g, all);
    NothingWritten(g, all);
    assert all[0..] == all;
    for i := 0 to widths.Length
      invariant TextWidth(g, line) + Sum(all[i..]) <= Sum(all) + GAP * Min(i, widths.Length - 1)
      invariant |shown| == i && line == Written(g, shown, all)
      invariant forall k :: 0 <= k < i ==> IsFitted(g, Cell(g, row, k), all[k], shown[k])
    {
      SumFrom(all, i);
      var value := TruncateText(g, Cell(g, row, i), widths[i]);
      WrittenNext(g, shown, all, value);
      shown := shown + [value];
      WidthIsSubadditive(g, line, value);
      line := line + value;
      if i < widths.Length - 1 {
        var width := MeasureText(g, value);
        var padding := Spaces(Max(0, widths[i] - width + GAP));
        PaddingWidth(g, line, widths[i] - width + GAP);
        line := line + padding;
      } else {
        assert line + "" == line;
      }
    }
    WrittenRow(g, row, all, shown);
  }

  lemma NothingWritten(g: Glyphs, widths: seq<int>)
    ensures Written(g, [], widths) == ""
  {
  }

  // The widest text of one column, its header included.
  function NaturalWidth(g: Glyphs, header: string, rows: seq<seq<string>>, i: nat): nat {
    if rows == [] then TextWidth(g, header)
    else
      var last := |rows| - 1;
      Max(NaturalWidth(g, header, rows[..last], i), TextWidth(g, Cell(g, rows[last], i)))
  }

  function Natural(g: Glyphs, headers: seq<string>, rows: seq<seq<string>>): (r: seq<int>)
    ensures |r| == |headers|
  {
    seq(|headers|, i requires 0 <= i < |headers| => NaturalWidth(g, headers[i], rows, i))
  }

  lemma {:induction false} NaturalIsWideEnough(g: Glyphs, header: string, rows: seq<seq<string>>, i: nat, r: nat)
    requires r < |rows|
    ensures TextWidth(g, Cell(g, rows[r], i)) <= NaturalWidth(g, header, rows, i)
  {
    var last := |rows| - 1;
    if r < last {
      NaturalIsWideEnough(g, header, rows[..last], i, r);
    }
  }

  lemma CellsFitNaturally(g: Glyphs, headers: seq<string>, rows: seq<seq<string>>, r: nat)
    requires r < |rows|
    ensures CellsFit(g, rows[r], Natural(g, headers, rows))
  {
    forall i: nat | i < |headers| ensures TextWidth(g, Cell(g, rows[r], i)) <= Natural(g, headers, rows)[i] {
      NaturalIsWideEnough(g, headers[i], rows, i, r);
    }
  }

  method MeasureColumns(g: Glyphs, headers: seq<string>, rows: seq<seq<string>>) returns (widths: array<int>)
    ensures fresh(widths) && widths[..] == Natural(g, headers, rows)
  {
    widths := new int[|headers|];
    for i := 0 to |headers|
      invariant forall j :: 0 <= j < i ==> widths[j] == TextWidth(g, headers[j])
    {
      var width := MeasureText(g, headers[i]);
      widths[i] := width;
    }
    assert widths[..] == Natural(g, headers, rows[..0]);
    for r := 0 to |rows|
      invariant widths[..] == Natural(g, headers, rows[..r])
    {
      var row := rows[r];
      assert rows[..r + 1][..r] == rows[..r];
      var index := 0;
      while index < |row| && index < widths.Length
        invariant 0 <= index <= widths.Length
        invariant forall j :: 0 <= j < index ==> widths[j] == NaturalWidth(g, headers[j], rows[..r + 1], j)
        invariant forall j :: index <= j < widths.Length ==> widths[j] == NaturalWidth(g, headers[j], rows[..r], j)
      {
        var width := MeasureText(g, g.oneLine(row[index]));
        widths[index] := Max(widths[index], width);
        index := index + 1;
      }
      assert forall j :: index <= j < widths.Length ==> Cell(g, row, j) == "";
      assert widths[..] == Natural(g, headers, rows[..r + 1]);
    }
    assert rows[..|rows|] == rows;
  }

  lemma FittingKeepsWhatFits(g: Glyphs, headers: seq<string>, start: seq<int>, now: seq<int>)
    requires |headers| == |start| && WidestFirst(start, HeaderMinimums(g, headers), now) && Sum(now) == Sum(start)
    ensures now == start
  {
    SumMonotone(now, start);
  }

  // The widths of a table that fits: none is lost, and as long as the headers
  // stay readable the widest columns give way first.
  ghost predicate AreTableWidths(
    g: Glyphs, headers: seq<string>, rows: seq<seq<string>>, available: int, widths: seq<int>)
  {
    var natural, minimums := Natural(g, headers, rows), HeaderMinimums(g, headers);
    && |widths| == |headers| && Sum(widths) <= available && KeepsOne(natural, widths)
    && (Sum(Floors(natural, minimums)) <= available ==>
          WidestFirst(natural, minimums, widths) && Sum(widths) == Min(Sum(natural), available))
  }

  // A table is written exactly when every column can have one character; it has
  // a line for the header and for each row, none wider than the terminal, and
  // when the widest cells fit, every cell is written whole.
  method WriteTerminalTable(g: Glyphs, headers: seq<string>, rows: seq<seq<string>>, terminalColumns: int)
    returns (lines: Option<seq<string>>, ghost used: seq<int>)
    ensures lines.Some? <==> headers != [] && Available(terminalColumns, |headers|) >= |headers|
    ensures lines.Some? ==> AreTableWidths(g, headers, rows, Available(terminalColumns, |headers|), used)
    ensures lines.Some? ==> |lines.value| == |rows| + 1 && IsRow(g, headers, used, lines.value[0])
    ensures lines.Some? ==> forall r: nat :: r < |rows| ==> IsRow(g, rows[r], used, lines.value[r + 1])
    ensures lines.Some? ==>
              forall line :: line in lines.value ==>
                TextWidth(g, line) <= if terminalColumns <= 0 then 120 else terminalColumns
    ensures lines.Some? && Sum(Natural(g, headers, rows)) <= Available(terminalColumns, |headers|) ==>
              used == Natural(g, headers, rows) && forall r: nat :: r < |rows| ==> CellsFit(g, rows[r], used)
  {
    hide WidestFirst, TextWidth, Laid, CellsFit, Floors, Natural, HeaderMinimums, Sum, IsRow;
    used := [];
    if |headers| == 0 {
      return None, used;
    }
    var widths := MeasureColumns(g, headers, rows);
    ghost var natural := widths[..];
    NaturalIsNotNegative(g, headers, rows);
    FloorsAreLeast(natural, HeaderMinimums(g, headers), natural) by {
      StartIsWidestFirst(natural, HeaderMinimums(g, headers));
    }
    var ok := FitTableWidths(g, widths, headers, terminalColumns);
    if !ok {
      return None, used;
    }
    used := widths[..];
    if Sum(natural) <= Available(terminalColumns, |headers|) {
      FittingKeepsWhatFits(g, headers, natural, used);
      forall r: nat | r < |rows| ensures CellsFit(g, rows[r], used) {
        CellsFitNaturally(g, headers, rows, r);
      }
    }
    var line := WriteTableRow(g, headers, widths);
    var out := [line];
    for r := 0 to |rows|
      invariant |out| == r + 1 && widths[..] == used && IsRow(g, headers, used, out[0])
      invariant forall line :: line in out ==>
                  TextWidth(g, line) <= if terminalColumns <= 0 then 120 else terminalColumns
      invariant forall k: nat :: k < r ==> IsRow(g, rows[k], used, out[k + 1])
    {
      line := WriteTableRow(g, rows[r], widths);
      out := out + [line];
    }
    return Some(out), used;
  }

  lemma NaturalIsNotNegative(g: Glyphs, headers: seq<string>, rows: seq<seq<string>>)
    ensures forall i :: 0 <= i < |headers| ==> Natural(g, headers, rows)[i] >= 0
  {
  }
}
