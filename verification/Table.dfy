/** The bordered ASCII tables of `tokenfuse sql`, and the cost rows keyed by their header. */
module Table {
  import opened Text

  // ---- parsing -------------------------------------------------------------

  function TrimStartBars(s: string): string {
    if s != "" && s[0] == '|' then TrimStartBars(s[1..]) else s
  }

  function TrimEndBars(s: string): string {
    if s != "" && s[|s| - 1] == '|' then TrimEndBars(s[..|s| - 1]) else s
  }

  function TrimAll(cells: seq<string>): seq<string> {
    seq(|cells|, i requires 0 <= i < |cells| => Trim(cells[i]))
  }

  function ParseRow(line: string): seq<string> {
    TrimAll(SplitOn(TrimEndBars(TrimStartBars(line)), '|'))
  }

  /** Only lines that start with a bar are rows; borders are dropped. */
  function ParseRows(lines: seq<string>): seq<seq<string>> {
    if lines == [] then []
    else
      var line := TrimEnd(lines[0]);
      (if line != "" && line[0] == '|' then [ParseRow(line)] else []) + ParseRows(lines[1..])
  }

  function ParsePrettyTable(text: string): seq<seq<string>> {
    ParseRows(Lines(text))
  }

  // ---- printing ------------------------------------------------------------

  function PaddedCell(cell: string, width: nat): string {
    " " + cell + Spaces(if width > |cell| then width - |cell| else 0) + " "
  }

  function PaddedCells(cells: seq<string>, widths: seq<nat>): seq<string>
    requires |cells| == |widths|
  {
    seq(|cells|, i requires 0 <= i < |cells| => PaddedCell(cells[i], widths[i]))
  }

  function PrintRow(cells: seq<string>, widths: seq<nat>): string
    requires |cells| == |widths|
  {
    "|" + Join(PaddedCells(cells, widths), "|") + "|"
  }

  function PrintBorder(widths: seq<nat>): string {
    if widths == [] then "+" else "+" + seq(widths[0] + 2, _ => '-') + PrintBorder(widths[1..])
  }

  predicate RowsFit(rows: seq<seq<string>>, widths: seq<nat>) {
    forall i :: 0 <= i < |rows| ==> |rows[i]| == |widths|
  }

  function PrintRows(rows: seq<seq<string>>, widths: seq<nat>): seq<string>
    requires RowsFit(rows, widths)
  {
    seq(|rows|, i requires 0 <= i < |rows| => PrintRow(rows[i], widths))
  }

  /** A header and rows between borders. */
  function TableLines(header: seq<string>, rows: seq<seq<string>>, widths: seq<nat>): seq<string>
    requires |header| == |widths| && RowsFit(rows, widths)
  {
    var border := [PrintBorder(widths)];
    border + ([PrintRow(header, widths)] + (border + (PrintRows(rows, widths) + border)))
  }

  function PrintTable(header: seq<string>, rows: seq<seq<string>>, widths: seq<nat>): string
    requires |header| == |widths| && RowsFit(rows, widths)
  {
    Unlines(TableLines(header, rows, widths))
  }

  // ---- parsing undoes printing -----------------------------------------------

  predicate CellOk(cell: string) {
    Trimmed(cell) && '|' !in cell && NoNewline(cell)
  }

  predicate RowOk(cells: seq<string>) {
    cells != [] && forall i :: 0 <= i < |cells| ==> CellOk(cells[i])
  }

  predicate RowsOk(rows: seq<seq<string>>) {
    forall i :: 0 <= i < |rows| ==> RowOk(rows[i])
  }

  /** Begins and ends with a space: what stands between two bars. */
  predicate Spaced(s: string) {
    s != "" && s[0] == ' ' && s[|s| - 1] == ' '
  }

  lemma {:induction false} JoinSpaced(parts: seq<string>)
    requires parts != [] && forall i :: 0 <= i < |parts| ==> Spaced(parts[i])
    ensures Spaced(Join(parts, "|"))
    decreases |parts|
  {
    if |parts| > 1 {
      JoinSpaced(parts[1..]);
      assert Spaced(parts[0]);
    }
  }

  lemma PaddedCellOk(cell: string, width: nat)
    requires CellOk(cell)
    ensures Spaced(PaddedCell(cell, width)) && '|' !in PaddedCell(cell, width)
    ensures NoNewline(PaddedCell(cell, width)) && Trim(PaddedCell(cell, width)) == cell
  {
    var pad := Spaces(if width > |cell| then width - |cell| else 0);
    assert " " + cell + pad + " " == " " + cell + (pad + " ");
    TrimPadded(" ", cell, pad + " ");
  }

  lemma BarsOff(inner: string)
    requires Spaced(inner)
    ensures TrimEndBars(TrimStartBars("|" + inner + "|")) == inner
  {
    assert ("|" + inner + "|")[1..] == inner + "|";
    assert TrimStartBars(inner + "|") == inner + "|";
    assert (inner + "|")[..|inner|] == inner;
  }

  lemma RowParses(cells: seq<string>, widths: seq<nat>)
    requires |cells| == |widths| && RowOk(cells)
    ensures ParseRow(PrintRow(cells, widths)) == cells
  {
    var padded := PaddedCells(cells, widths);
    forall i | 0 <= i < |cells|
      ensures Spaced(padded[i]) && '|' !in padded[i] && Trim(padded[i]) == cells[i]
    {
      PaddedCellOk(cells[i], widths[i]);
    }
    JoinSpaced(padded);
    BarsOff(Join(padded, "|"));
    SplitJoin(padded, '|');
  }

  lemma {:induction false} JoinNoNewline(parts: seq<string>)
    requires forall i :: 0 <= i < |parts| ==> NoNewline(parts[i])
    ensures NoNewline(Join(parts, "|"))
    decreases |parts|
  {
    if |parts| > 1 {
      JoinNoNewline(parts[1..]);
    }
  }

  /** A printed row is a line that starts and ends with a bar. */
  predicate Barred(line: string) {
    |line| >= 2 && line[0] == '|' && line[|line| - 1] == '|' && NoNewline(line)
  }

  lemma RowIsBarred(cells: seq<string>, widths: seq<nat>)
    requires |cells| == |widths| && RowOk(cells)
    ensures Barred(PrintRow(cells, widths))
  {
    forall i | 0 <= i < |cells| ensures NoNewline(PaddedCells(cells, widths)[i]) {
      PaddedCellOk(cells[i], widths[i]);
    }
    JoinNoNewline(PaddedCells(cells, widths));
  }

  predicate IsBorder(line: string) {
    line != "" && line[0] == '+' && line[|line| - 1] == '+' && NoNewline(line)
  }

  lemma {:induction false} PrintedBorder(widths: seq<nat>)
    ensures IsBorder(PrintBorder(widths))
    decreases |widths|
  {
    if widths != [] {
      PrintedBorder(widths[1..]);
    }
  }

  lemma BorderDropped(line: string, rest: seq<string>)
    requires IsBorder(line)
    ensures ParseRows([line] + rest) == ParseRows(rest)
  {
    assert TrimEnd(line) == line && ([line] + rest)[1..] == rest;
  }

  /** Whatever does not begin with a bar is no row. */
  lemma OtherDropped(line: string, rest: seq<string>)
    requires line == "" || line[0] != '|'
    ensures ParseRows([line] + rest) == ParseRows(rest)
  {
    TrimEndPrefix(line);
    assert ([line] + rest)[1..] == rest;
  }

  lemma {:induction false} TrimEndPrefix(s: string)
    ensures TrimEnd(s) <= s
    decreases |s|
  {
    if s != "" && IsWhitespace(s[|s| - 1]) {
      TrimEndPrefix(s[..|s| - 1]);
    }
  }

  lemma BarredFirst(line: string, rest: seq<string>)
    requires Barred(line)
    ensures ParseRows([line] + rest) == [ParseRow(line)] + ParseRows(rest)
  {
    assert TrimEnd(line) == line && ([line] + rest)[1..] == rest;
  }

  /** A parser that takes every one of `lines` off the front of a text as that row. */
  ghost predicate Keeps(parse: seq<string> -> seq<seq<string>>, lines: seq<string>, rows: seq<seq<string>>)
    requires |lines| == |rows|
  {
    forall i, rest :: 0 <= i < |lines| ==> parse([lines[i]] + rest) == [rows[i]] + parse(rest)
  }

  lemma {:induction false} KeepsAll(parse: seq<string> -> seq<seq<string>>, lines: seq<string>,
                                    rows: seq<seq<string>>, rest: seq<string>)
    requires |lines| == |rows| && Keeps(parse, lines, rows)
    ensures parse(lines + rest) == rows + parse(rest)
    decreases |lines|
  {
    if lines == [] {
      assert lines + rest == rest && rows + parse(rest) == parse(rest);
    } else {
      assert lines + rest == [lines[0]] + (lines[1..] + rest);
      KeepsAll(parse, lines[1..], rows[1..], rest);
      assert [rows[0]] + (rows[1..] + parse(rest)) == rows + parse(rest);
    }
  }

  /** Barred lines are kept, each as its cells. */
  lemma BarredKept(lines: seq<string>, rows: seq<seq<string>>, rest: seq<string>)
    requires |lines| == |rows|
    requires forall i :: 0 <= i < |lines| ==> Barred(lines[i]) && ParseRow(lines[i]) == rows[i]
    ensures ParseRows(lines + rest) == rows + ParseRows(rest)
  {
    forall i, rest | 0 <= i < |lines| ensures ParseRows([lines[i]] + rest) == [rows[i]] + ParseRows(rest) {
      BarredFirst(lines[i], rest);
    }
    KeepsAll(ParseRows, lines, rows, rest);
  }

  lemma PrintedRows(rows: seq<seq<string>>, widths: seq<nat>)
    requires RowsFit(rows, widths) && RowsOk(rows)
    ensures
      var lines := PrintRows(rows, widths);
      forall i :: 0 <= i < |lines| ==> Barred(lines[i]) && ParseRow(lines[i]) == rows[i]
  {
    forall i | 0 <= i < |rows|
      ensures Barred(PrintRow(rows[i], widths)) && ParseRow(PrintRow(rows[i], widths)) == rows[i]
    {
      RowIsBarred(rows[i], widths);
      RowParses(rows[i], widths);
    }
  }

  lemma NothingToStrip(lines: seq<string>)
    requires forall i :: 0 <= i < |lines| ==> Barred(lines[i]) || IsBorder(lines[i])
    ensures StripAllCr(lines) == lines
  {
    forall i | 0 <= i < |lines| ensures StripCr(lines[i]) == lines[i] {
      assert lines[i][|lines[i]| - 1] != '\r';
    }
  }

  /** Lines that end in a bar or a plus come out of the text as they went in. */
  lemma LinesIntact(lines: seq<string>)
    requires forall i :: 0 <= i < |lines| ==> Barred(lines[i]) || IsBorder(lines[i])
    ensures Lines(Unlines(lines)) == lines
  {
    LinesOfUnlines(lines);
    NothingToStrip(lines);
  }

  lemma FramedRowsParse(border: string, first: string, header: seq<string>, lines: seq<string>,
                        rows: seq<seq<string>>)
    requires IsBorder(border) && Barred(first) && ParseRow(first) == header && |lines| == |rows|
    requires forall i :: 0 <= i < |lines| ==> Barred(lines[i]) && ParseRow(lines[i]) == rows[i]
    ensures ParseRows([border] + ([first] + ([border] + (lines + [border])))) == [header] + rows
  {
    var tail := lines + [border];
    BorderDropped(border, [first] + ([border] + tail));
    BorderDropped(border, tail);
    BordersParseToNothing([border]);
    BarredKept(lines, rows, [border]);
    BarredFirst(first, [border] + tail);
    assert rows + [] == rows;
  }

  /** Round trip: a printed table parses back to its header and rows. */
  lemma TableRoundTrip(header: seq<string>, rows: seq<seq<string>>, widths: seq<nat>)
    requires RowOk(header) && |header| == |widths|
    requires RowsFit(rows, widths) && RowsOk(rows)
    ensures ParsePrettyTable(PrintTable(header, rows, widths)) == [header] + rows
  {
    PrintedBorder(widths);
    RowIsBarred(header, widths);
    RowParses(header, widths);
    PrintedRows(rows, widths);
    LinesIntact(TableLines(header, rows, widths));
    FramedRowsParse(PrintBorder(widths), PrintRow(header, widths), header, PrintRows(rows, widths), rows);
  }

  /** A table of borders only is zero rows. */
  lemma {:induction false} BordersOnly(borders: seq<string>)
    requires forall i :: 0 <= i < |borders| ==> IsBorder(borders[i])
    ensures ParsePrettyTable(Unlines(borders)) == []
  {
    LinesIntact(borders);
    BordersParseToNothing(borders);
  }

  lemma {:induction false} BordersParseToNothing(borders: seq<string>)
    requires forall i :: 0 <= i < |borders| ==> IsBorder(borders[i])
    ensures ParseRows(borders) == []
    decreases |borders|
  {
    if borders != [] {
      BordersParseToNothing(borders[1..]);
      BorderDropped(borders[0], borders[1..]);
      assert [borders[0]] + borders[1..] == borders;
    }
  }
}
