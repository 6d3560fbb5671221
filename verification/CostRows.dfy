/** Cost rows read from a table by the names of its columns. */
module CostRows {
  import opened Wrappers
  import opened Decimal
  import opened Table

  datatype CostRow = CostRow(title: string, calls: nat, totalCost: int, totalToolCalls: nat,
                             knownRows: nat, costPerToolCall: Option<int>)

  /** DivisionOverflow is i64::MIN divided by -1, which panics. */
  datatype TableError = MissingColumn(name: string) | ShortRow | NonNumeric(field: string) | DivisionOverflow

  /** The first column of that name, or `|header|`. */
  function Position(header: seq<string>, name: string): (i: nat)
    ensures i <= |header| && (i < |header| ==> header[i] == name) && name !in header[..i]
  {
    if header == [] || header[0] == name then 0 else 1 + Position(header[1..], name)
  }

  /** `as i64` on a u64. */
  function CastI64(n: nat): int {
    if n <= I64_MAX then n else n - 0x1_0000_0000_0000_0000
  }

  function Magnitude(a: int): nat {
    if a < 0 then -a else a
  }

  /** Rust's `/`: the quotient of the magnitudes, with the sign of the quotient. */
  function TruncDiv(a: int, b: int): int
    requires b != 0
  {
    var q := Magnitude(a) / Magnitude(b);
    if (a < 0) == (b < 0) then q else -q
  }

  function CostPerCall(totalCost: int, toolCalls: nat, knownRows: nat): Result<Option<int>, TableError>
    requires toolCalls <= U64_MAX
  {
    if knownRows == 0 || toolCalls == 0 then Ok(None)
    else if totalCost == -(I64_MAX as int) - 1 && CastI64(toolCalls) == -1 then Err(DivisionOverflow)
    else Ok(Some(TruncDiv(totalCost, CastI64(toolCalls))))
  }

  lemma QuotientBounds(m: nat, b: nat, q: int)
    requires b > 0 && q == m / b
    ensures 0 <= q && q * b <= m < (q + 1) * b
  {
    assert m == q * b + m % b;
    assert (q + 1) * b == q * b + b;
  }

  lemma NegatedBounds(m: int, b: int, q: int)
    requires q * b <= m < (q + 1) * b
    ensures (-q - 1) * b < -m <= -q * b
  {
    assert -q * b == -(q * b);
    assert (-q - 1) * b == -((q + 1) * b);
  }

  /** `q` is `a / b` cut off toward zero. */
  ghost predicate IsTruncatedQuotient(a: int, b: nat, q: int) {
    if a >= 0 then 0 <= q && q * b <= a < (q + 1) * b else q <= 0 && (q - 1) * b < a <= q * b
  }

  lemma TruncDivTruncates(a: int, b: nat)
    requires b > 0
    ensures IsTruncatedQuotient(a, b, TruncDiv(a, b))
  {
    var q := Magnitude(a) / b;
    QuotientBounds(Magnitude(a), b, q);
    NegatedBounds(Magnitude(a), b, q);
    SignedQuotient(a, b, q);
  }

  lemma SignedQuotient(a: int, b: nat, q: int)
    requires b > 0 && q == Magnitude(a) / b
    ensures TruncDiv(a, b) == if a < 0 then -q else q
  {
    assert Magnitude(b) == b;
  }

  function Flipped(a: int, q: int): int {
    if a < 0 then q else -q
  }

  /** Past i64::MAX the cast counts from the other end, and the quotient comes out with its sign flipped. */
  lemma CastQuotient(totalCost: int, toolCalls: nat, b: nat)
    requires I64_MAX < toolCalls <= U64_MAX && b == U64_MAX + 1 - toolCalls
    ensures b > 0 && TruncDiv(totalCost, CastI64(toolCalls)) == Flipped(totalCost, Magnitude(totalCost) / b)
  {
    assert Magnitude(CastI64(toolCalls)) == b;
  }

  lemma QuotientVanishes(m: nat, b: nat, q: int)
    requires b > 0 && q == m / b
    ensures 0 <= q && (q == 0 <==> m < b)
  {
    QuotientBounds(m, b, q);
    if q > 0 {
      assert q * b >= b;
    }
  }

  /** A quotient with the wrong sign is right only when it is zero, and then it has to be zero. */
  lemma FlippedIsRight(a: int, calls: nat, q: nat)
    requires q == 0 ==> Magnitude(a) < calls
    ensures IsTruncatedQuotient(a, calls, Flipped(a, q)) <==> q == 0
  {
  }

  /** When the division panics: only i64::MIN by a count of 2^64 - 1. */
  lemma RatioPastI64(totalCost: int, toolCalls: nat, knownRows: nat)
    requires I64_MAX < toolCalls <= U64_MAX && knownRows > 0
    requires !(totalCost == -(I64_MAX as int) - 1 && toolCalls == U64_MAX)
    ensures CostPerCall(totalCost, toolCalls, knownRows) == Ok(Some(TruncDiv(totalCost, CastI64(toolCalls))))
  {
  }

  lemma RatioFits(totalCost: int, toolCalls: nat, knownRows: nat)
    requires 0 < toolCalls <= I64_MAX && knownRows > 0
    ensures CostPerCall(totalCost, toolCalls, knownRows) == Ok(Some(TruncDiv(totalCost, toolCalls)))
  {
  }

  /** What a row's ratio should be: its cost per call, cut off toward zero. */
  ghost predicate RatioRight(r: Result<Option<int>, TableError>, totalCost: int, toolCalls: nat) {
    r.Ok? && r.value.Some? && IsTruncatedQuotient(totalCost, toolCalls, r.value.value)
  }

  /**
   * The ratio is right if and only if the call count fits an i64 or the cost is
   * smaller than what the count lacks to 2^64.
   */
  lemma RatioIsExact(totalCost: int, toolCalls: nat, knownRows: nat)
    requires 0 < toolCalls <= U64_MAX && knownRows > 0
    requires -(I64_MAX as int) - 1 <= totalCost <= I64_MAX
    ensures RatioRight(CostPerCall(totalCost, toolCalls, knownRows), totalCost, toolCalls)
            <==> toolCalls <= I64_MAX || Magnitude(totalCost) < U64_MAX + 1 - toolCalls
  {
    if toolCalls <= I64_MAX {
      RatioFits(totalCost, toolCalls, knownRows);
      TruncDivTruncates(totalCost, toolCalls);
    } else if !(totalCost == -(I64_MAX as int) - 1 && toolCalls == U64_MAX) {
      var b := U64_MAX + 1 - toolCalls;
      var q := Magnitude(totalCost) / b;
      RatioPastI64(totalCost, toolCalls, knownRows);
      CastQuotient(totalCost, toolCalls, b);
      QuotientVanishes(Magnitude(totalCost), b, q);
      FlippedIsRight(totalCost, toolCalls, q);
    }
  }

  /** There is no ratio exactly when there are no tool calls or no rows that know them. */
  lemma NoRatio(totalCost: int, toolCalls: nat, knownRows: nat)
    requires toolCalls <= U64_MAX
    ensures CostPerCall(totalCost, toolCalls, knownRows) == Ok(None) <==> toolCalls == 0 || knownRows == 0
  {
  }

  /** Two ways it goes wrong past that: the sign flips, or the division panics. */
  lemma RatioFlipsPastI64()
    ensures CostPerCall(5, U64_MAX, 1) == Ok(Some(-5))
    ensures CostPerCall(-(I64_MAX as int) - 1, U64_MAX, 1) == Err(DivisionOverflow)
  {
    assert CastI64(U64_MAX) == -1;
    assert 5 / 1 == 5;
  }

  /** The cell of a row in a named column. */
  function Cell(header: seq<string>, row: seq<string>, name: string): Option<string> {
    var i := Position(header, name);
    if i < |row| then Some(row[i]) else None
  }

  function NumberCell(header: seq<string>, row: seq<string>, name: string): (r: Result<nat, TableError>)
    ensures r.Ok? ==> r.value <= U64_MAX
  {
    match Cell(header, row, name)
    case None => Err(ShortRow)
    case Some(text) =>
      match ParseU64(text)
      case Some(n) => Ok(n)
      case None => Err(NonNumeric(name))
  }

  const CALLS := "calls"
  const COST := "total_cost_microusd"
  const TOOL_CALLS := "total_tool_calls"
  const KNOWN := "tool_calls_known_rows"

  function ReadCost(header: seq<string>, row: seq<string>): Result<int, TableError> {
    match Cell(header, row, COST)
    case None => Err(ShortRow)
    case Some(text) =>
      match ParseI64(text)
      case Some(n) => Ok(n)
      case None => Err(NonNumeric(COST))
  }

  /** One row; errors in the order its columns are read. */
  function ReadRow(header: seq<string>, row: seq<string>, titleColumn: string): Result<CostRow, TableError> {
    var title, calls, cost := Cell(header, row, titleColumn), NumberCell(header, row, CALLS), ReadCost(header, row);
    var tools, known := NumberCell(header, row, TOOL_CALLS), NumberCell(header, row, KNOWN);
    if title.None? then Err(ShortRow)
    else if calls.Err? then Err(calls.error)
    else if cost.Err? then Err(cost.error)
    else if tools.Err? then Err(tools.error)
    else if known.Err? then Err(known.error)
    else
      var per := CostPerCall(cost.value, tools.value, known.value);
      if per.Err? then Err(per.error)
      else Ok(CostRow(title.value, calls.value, cost.value, tools.value, known.value, per.value))
  }

  /** What `read` makes of every row, or its first error. */
  function ReadAll(data: seq<seq<string>>, read: seq<string> -> Result<CostRow, TableError>)
    : Result<seq<CostRow>, TableError>
    decreases |data|
  {
    if data == [] then Ok([])
    else
      var before := ReadAll(data[..|data| - 1], read);
      var last := read(data[|data| - 1]);
      if before.Err? then before
      else if last.Err? then Err(last.error)
      else Ok(before.value + [last.value])
  }

  function ReadRows(header: seq<string>, data: seq<seq<string>>, titleColumn: string)
    : Result<seq<CostRow>, TableError>
  {
    ReadAll(data, row => ReadRow(header, row, titleColumn))
  }

  function Missing(header: seq<string>, names: seq<string>): Option<string> {
    if names == [] then None
    else if Position(header, names[0]) == |header| then Some(names[0])
    else Missing(header, names[1..])
  }

  function ReadTable(table: seq<seq<string>>, titleColumn: string): Result<seq<CostRow>, TableError> {
    if table == [] then Ok([])
    else
      match Missing(table[0], [titleColumn, CALLS, COST, TOOL_CALLS, KNOWN])
      case Some(name) => Err(MissingColumn(name))
      case None => ReadRows(table[0], table[1..], titleColumn)
  }

  method ParseCostRows(text: string, titleColumn: string) returns (r: Result<seq<CostRow>, TableError>)
    ensures r == ReadTable(ParsePrettyTable(text), titleColumn)
  {
    var table := ParsePrettyTable(text);
    if table == [] {
      return Ok([]);
    }
    var header, data := table[0], table[1..];
    var missing := Missing(header, [titleColumn, CALLS, COST, TOOL_CALLS, KNOWN]);
    if missing.Some? {
      return Err(MissingColumn(missing.value));
    }
    ghost var read := row => ReadRow(header, row, titleColumn);
    var out := [];
    for i := 0 to |data|
      invariant ReadAll(data[..i], read) == Ok(out)
    {
      assert data[..i + 1][..i] == data[..i];
      var row := ReadRow(header, data[i], titleColumn);
      if row.Err? {
        ErrStays(data, read, i + 1);
        return Err(row.error);
      }
      out := out + [row.value];
    }
    assert data[..|data|] == data;
    return Ok(out);
  }

  lemma {:induction false} ErrStays(data: seq<seq<string>>, read: seq<string> -> Result<CostRow, TableError>, k: nat)
    requires k <= |data| && ReadAll(data[..k], read).Err?
    ensures ReadAll(data, read) == ReadAll(data[..k], read)
    decreases |data|
  {
    if k == |data| {
      assert data[..k] == data;
    } else {
      var before := data[..|data| - 1];
      assert before[..k] == data[..k];
      ErrStays(before, read, k);
    }
  }

  // ---- what is refused -------------------------------------------------------------

  /** The number in a named column, or why there is none. */
  ghost predicate NumberIn(header: seq<string>, row: seq<string>, name: string, n: nat) {
    Cell(header, row, name).Some? && ParseU64(Cell(header, row, name).value) == Some(n)
  }

  ghost predicate HasNumber(header: seq<string>, row: seq<string>, name: string) {
    Cell(header, row, name).Some? && ParseU64(Cell(header, row, name).value).Some?
  }

  ghost predicate NumberMissing(header: seq<string>, row: seq<string>, name: string, e: TableError) {
    match Cell(header, row, name)
    case None => e == ShortRow
    case Some(text) => ParseU64(text).None? && e == NonNumeric(name)
  }

  /** A row that is read has these five cells, and only a panic of the division stands against them. */
  lemma RowRead(header: seq<string>, row: seq<string>, titleColumn: string, title: string, calls: nat, cost: int,
                tools: nat, known: nat)
    requires Cell(header, row, titleColumn) == Some(title)
    requires NumberIn(header, row, "calls", calls) && NumberIn(header, row, "total_tool_calls", tools)
    requires NumberIn(header, row, "tool_calls_known_rows", known)
    requires Cell(header, row, "total_cost_microusd").Some?
    requires ParseI64(Cell(header, row, "total_cost_microusd").value) == Some(cost)
    requires tools <= U64_MAX
    ensures ReadRow(header, row, titleColumn) ==
            match CostPerCall(cost, tools, known)
            case Ok(per) => Ok(CostRow(title, calls, cost, tools, known, per))
            case Err(e) => Err(e)
  {
  }

  /** The first cell that is missing or no number decides the error. */
  lemma RowRefused(header: seq<string>, row: seq<string>, titleColumn: string, e: TableError)
    ensures
      var title, cost := Cell(header, row, titleColumn), Cell(header, row, "total_cost_microusd");
      var r := ReadRow(header, row, titleColumn);
      && (title.None? ==> r == Err(ShortRow))
      && (title.Some? && NumberMissing(header, row, "calls", e) ==> r == Err(e))
      && (title.Some? && HasNumber(header, row, "calls") ==>
            && (cost.None? ==> r == Err(ShortRow))
            && (cost.Some? && ParseI64(cost.value).None? ==> r == Err(NonNumeric("total_cost_microusd")))
            && (cost.Some? && ParseI64(cost.value).Some? ==>
                  && (NumberMissing(header, row, "total_tool_calls", e) ==> r == Err(e))
                  && (HasNumber(header, row, "total_tool_calls") ==>
                        NumberMissing(header, row, "tool_calls_known_rows", e) ==> r == Err(e))))
  {
  }

  /** The first of the five columns that the header lacks decides the error; without rows there is no header. */
  lemma {:induction false} ColumnMissing(header: seq<string>, rows: seq<seq<string>>, titleColumn: string, k: nat)
    requires k < 5 && HeaderFor(titleColumn)[k] !in header
    requires forall j :: 0 <= j < k ==> HeaderFor(titleColumn)[j] in header
    ensures ReadTable([header] + rows, titleColumn) == Err(MissingColumn(HeaderFor(titleColumn)[k]))
    ensures ReadTable([], titleColumn) == Ok([])
  {
    MissingAt(header, HeaderFor(titleColumn), k);
    assert ([header] + rows)[0] == header;
  }

  lemma {:induction false} MissingAt(header: seq<string>, names: seq<string>, k: nat)
    requires k < |names| && names[k] !in header && forall j :: 0 <= j < k ==> names[j] in header
    ensures Missing(header, names) == Some(names[k])
    decreases k
  {
    if k > 0 {
      assert names[0] in header && header[..|header|] == header;
      MissingAt(header, names[1..], k - 1);
    }
  }

  // ---- columns may stand in any order ------------------------------------------

  /** `perm` and `inv` are inverse permutations of the columns 0 to n. */
  ghost predicate Inverse(perm: seq<nat>, inv: seq<nat>, n: nat) {
    && |perm| == n && |inv| == n
    && (forall i :: 0 <= i < n ==> perm[i] < n && inv[perm[i]] == i)
    && (forall i :: 0 <= i < n ==> inv[i] < n && perm[inv[i]] == i)
  }

  function Permuted(row: seq<string>, perm: seq<nat>): seq<string>
    requires forall i :: 0 <= i < |perm| ==> perm[i] < |row|
  {
    seq(|perm|, i requires 0 <= i < |perm| => row[perm[i]])
  }

  ghost predicate Distinct(header: seq<string>) {
    forall i, j :: 0 <= i < j < |header| ==> header[i] != header[j]
  }

  lemma PositionAt(header: seq<string>, name: string, i: nat)
    requires Distinct(header) && i < |header| && header[i] == name
    ensures Position(header, name) == i
  {
    var k := Position(header, name);
    assert forall j :: 0 <= j < k ==> header[..k][j] == header[j] != name;
  }

  lemma PositionPermuted(header: seq<string>, perm: seq<nat>, inv: seq<nat>, name: string)
    requires Distinct(header) && Inverse(perm, inv, |header|)
    ensures
      var i := Position(header, name);
      Position(Permuted(header, perm), name) == if i < |header| then inv[i] else |header|
  {
    var i, mixed := Position(header, name), Permuted(header, perm);
    var k := Position(mixed, name);
    if i < |header| {
      forall a, b | 0 <= a < b < |mixed| ensures mixed[a] != mixed[b] {
        assert perm[a] != perm[b];
      }
      PositionAt(mixed, name, inv[i]);
    } else {
      assert header[..i] == header;
      assert forall j :: 0 <= j < |mixed| ==> mixed[j] in header;
    }
  }

  lemma CellPermuted(header: seq<string>, row: seq<string>, perm: seq<nat>, inv: seq<nat>, name: string)
    requires Distinct(header) && Inverse(perm, inv, |header|) && |row| == |header|
    ensures Cell(Permuted(header, perm), Permuted(row, perm), name) == Cell(header, row, name)
  {
    PositionPermuted(header, perm, inv, name);
  }

  lemma RowPermuted(header: seq<string>, row: seq<string>, perm: seq<nat>, inv: seq<nat>, titleColumn: string)
    requires Distinct(header) && Inverse(perm, inv, |header|) && |row| == |header|
    ensures ReadRow(Permuted(header, perm), Permuted(row, perm), titleColumn) == ReadRow(header, row, titleColumn)
  {
    CellPermuted(header, row, perm, inv, titleColumn);
    CellPermuted(header, row, perm, inv, CALLS);
    CellPermuted(header, row, perm, inv, COST);
    CellPermuted(header, row, perm, inv, TOOL_CALLS);
    CellPermuted(header, row, perm, inv, KNOWN);
  }

  function PermutedRows(rows: seq<seq<string>>, perm: seq<nat>): seq<seq<string>>
    requires forall r, i :: 0 <= r < |rows| && 0 <= i < |perm| ==> perm[i] < |rows[r]|
  {
    seq(|rows|, r requires 0 <= r < |rows| => Permuted(rows[r], perm))
  }

  lemma {:induction false} RowsPermuted(header: seq<string>, rows: seq<seq<string>>, perm: seq<nat>,
                                        inv: seq<nat>, titleColumn: string)
    requires Distinct(header) && Inverse(perm, inv, |header|)
    requires forall i :: 0 <= i < |rows| ==> |rows[i]| == |header|
    ensures ReadRows(Permuted(header, perm), PermutedRows(rows, perm), titleColumn)
         == ReadRows(header, rows, titleColumn)
    decreases |rows|
  {
    if rows != [] {
      var k := |rows| - 1;
      RowsPermuted(header, rows[..k], perm, inv, titleColumn);
      RowPermuted(header, rows[k], perm, inv, titleColumn);
      assert PermutedRows(rows, perm)[..k] == PermutedRows(rows[..k], perm);
    }
  }

  lemma {:induction false} MissingPermuted(header: seq<string>, names: seq<string>, perm: seq<nat>, inv: seq<nat>)
    requires Distinct(header) && Inverse(perm, inv, |header|)
    ensures Missing(Permuted(header, perm), names) == Missing(header, names)
    decreases |names|
  {
    if names != [] {
      PositionPermuted(header, perm, inv, names[0]);
      MissingPermuted(header, names[1..], perm, inv);
    }
  }

  lemma PermutedRowOk(cells: seq<string>, perm: seq<nat>)
    requires RowOk(cells) && |perm| == |cells| && forall i :: 0 <= i < |perm| ==> perm[i] < |cells|
    ensures RowOk(Permuted(cells, perm))
  {
  }

  /**
   * Column order does not matter: printing a table with its distinct columns in
   * any order, and any widths, reads as the same rows or the same error.
   */
  lemma ColumnOrderDoesNotMatter(header: seq<string>, rows: seq<seq<string>>, perm: seq<nat>, inv: seq<nat>,
                                 widths: seq<nat>, otherWidths: seq<nat>, titleColumn: string)
    requires RowOk(header) && Distinct(header) && Inverse(perm, inv, |header|)
    requires |widths| == |otherWidths| == |header|
    requires RowsFit(rows, widths) && RowsOk(rows)
    ensures ReadTable(ParsePrettyTable(PrintTable(Permuted(header, perm), PermutedRows(rows, perm), otherWidths)),
                      titleColumn)
         == ReadTable(ParsePrettyTable(PrintTable(header, rows, widths)), titleColumn)
  {
    TableRoundTrip(header, rows, widths);
    PermutedRowOk(header, perm);
    forall i | 0 <= i < |rows| ensures RowOk(PermutedRows(rows, perm)[i]) {
      PermutedRowOk(rows[i], perm);
    }
    TableRoundTrip(Permuted(header, perm), PermutedRows(rows, perm), otherWidths);
    ReadPermuted(header, rows, perm, inv, titleColumn);
  }

  lemma ReadPermuted(header: seq<string>, rows: seq<seq<string>>, perm: seq<nat>, inv: seq<nat>, titleColumn: string)
    requires Distinct(header) && Inverse(perm, inv, |header|)
    requires forall i :: 0 <= i < |rows| ==> |rows[i]| == |header|
    ensures ReadTable([Permuted(header, perm)] + PermutedRows(rows, perm), titleColumn)
         == ReadTable([header] + rows, titleColumn)
  {
    MissingPermuted(header, [titleColumn, CALLS, COST, TOOL_CALLS, KNOWN], perm, inv);
    RowsPermuted(header, rows, perm, inv, titleColumn);
    assert ([Permuted(header, perm)] + PermutedRows(rows, perm))[1..] == PermutedRows(rows, perm);
    assert ([header] + rows)[1..] == rows;
  }

  // ---- reading undoes printing -----------------------------------------------

  function HeaderFor(titleColumn: string): seq<string> {
    [titleColumn, "calls", "total_cost_microusd", "total_tool_calls", "tool_calls_known_rows"]
  }

  function CellsOf(r: CostRow): seq<string> {
    [r.title, Digits(r.calls), PrintInt(r.totalCost), Digits(r.totalToolCalls), Digits(r.knownRows)]
  }

  /** A row whose numbers fit their types and whose ratio is what its numbers give. */
  ghost predicate Consistent(r: CostRow) {
    && r.calls <= U64_MAX && r.totalToolCalls <= U64_MAX && r.knownRows <= U64_MAX
    && -(I64_MAX as int) - 1 <= r.totalCost <= I64_MAX
    && CostPerCall(r.totalCost, r.totalToolCalls, r.knownRows) == Ok(r.costPerToolCall)
  }

  lemma CellAt(header: seq<string>, row: seq<string>, i: nat)
    requires Distinct(header) && |row| == |header| && i < |header|
    ensures Cell(header, row, header[i]) == Some(row[i])
  {
    PositionAt(header, header[i], i);
  }

  lemma RowReads(r: CostRow, titleColumn: string)
    requires Consistent(r) && Distinct(HeaderFor(titleColumn))
    ensures ReadRow(HeaderFor(titleColumn), CellsOf(r), titleColumn) == Ok(r)
  {
    var header, cells := HeaderFor(titleColumn), CellsOf(r);
    CellAt(header, cells, 0);
    CellAt(header, cells, 1);
    CellAt(header, cells, 2);
    CellAt(header, cells, 3);
    CellAt(header, cells, 4);
    ParsePrinted(r.calls);
    ParsePrinted(r.totalCost);
    ParsePrinted(r.totalToolCalls);
    ParsePrinted(r.knownRows);
  }

  function AllCells(rows: seq<CostRow>): seq<seq<string>> {
    seq(|rows|, i requires 0 <= i < |rows| => CellsOf(rows[i]))
  }

  lemma {:induction false} RowsRead(data: seq<seq<string>>, rows: seq<CostRow>,
                                    read: seq<string> -> Result<CostRow, TableError>)
    requires |data| == |rows|
    requires forall i :: 0 <= i < |rows| ==> read(data[i]) == Ok(rows[i])
    ensures ReadAll(data, read) == Ok(rows)
    decreases |rows|
  {
    if rows != [] {
      var k := |rows| - 1;
      RowsRead(data[..k], rows[..k], read);
      assert rows[..k] + [rows[k]] == rows;
    }
  }

  lemma {:induction false} NothingMissing(header: seq<string>, names: seq<string>)
    requires forall i :: 0 <= i < |names| ==> names[i] in header
    ensures Missing(header, names) == None
    decreases |names|
  {
    if names != [] {
      assert header[..|header|] == header;
      NothingMissing(header, names[1..]);
    }
  }

  /** The parsed table of cost rows reads as those cost rows, ratios included. */
  lemma CellsRead(rows: seq<CostRow>, titleColumn: string)
    requires Distinct(HeaderFor(titleColumn)) && forall i :: 0 <= i < |rows| ==> Consistent(rows[i])
    ensures ReadTable([HeaderFor(titleColumn)] + AllCells(rows), titleColumn) == Ok(rows)
  {
    var header := HeaderFor(titleColumn);
    assert forall i :: 0 <= i < |header| ==> header[i] in header;
    NothingMissing(header, header);
    forall i | 0 <= i < |rows| ensures ReadRow(header, CellsOf(rows[i]), titleColumn) == Ok(rows[i]) {
      RowReads(rows[i], titleColumn);
    }
    RowsRead(AllCells(rows), rows, row => ReadRow(header, row, titleColumn));
    assert ([header] + AllCells(rows))[1..] == AllCells(rows);
  }

  lemma NumberCellOk(n: int)
    ensures CellOk(PrintInt(n))
  {
    var d := Digits(Magnitude(n));
    assert IsDigit(d[0]) && IsDigit(d[|d| - 1]);
  }

  lemma HeaderCellsOk(titleColumn: string)
    requires CellOk(titleColumn)
    ensures RowOk(HeaderFor(titleColumn))
  {
  }

  lemma CellsOk(r: CostRow)
    requires CellOk(r.title)
    ensures RowOk(CellsOf(r))
  {
    NumberCellOk(r.calls);
    NumberCellOk(r.totalCost);
    NumberCellOk(r.totalToolCalls);
    NumberCellOk(r.knownRows);
  }

  /** The printed table of any cost rows, in columns of any width, reads as those cost rows. */
  lemma PrintedCostRowsRead(rows: seq<CostRow>, titleColumn: string, widths: seq<nat>)
    requires Distinct(HeaderFor(titleColumn)) && CellOk(titleColumn) && |widths| == 5
    requires forall i :: 0 <= i < |rows| ==> Consistent(rows[i]) && CellOk(rows[i].title)
    ensures ReadTable(ParsePrettyTable(PrintTable(HeaderFor(titleColumn), AllCells(rows), widths)), titleColumn)
         == Ok(rows)
  {
    HeaderCellsOk(titleColumn);
    forall i | 0 <= i < |rows| ensures RowOk(AllCells(rows)[i]) {
      CellsOk(rows[i]);
    }
    TableRoundTrip(HeaderFor(titleColumn), AllCells(rows), widths);
    CellsRead(rows, titleColumn);
  }
}
