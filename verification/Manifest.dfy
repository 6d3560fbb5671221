/** The epoch log of the screenshot campaign: open, close, and which epoch a time belongs to. */
module Manifest {
  import opened Wrappers
  import opened Decimal

  datatype Totals = Totals(runs: int, calls: int, spentUsd: real, killed: int)

  /** One row. A hand-written one may lack an id (read as "") or a closing time. */
  datatype Row = Row(id: string, title: string, openedUnix: int, openedTotals: Totals,
                     closedUnix: Option<int>, closedTotals: Option<Totals>)

  datatype Exit = StillOpen(id: string) | BadId | NoOpenEpoch | CloudUnreachable

  // ---- ids -----------------------------------------------------------------

  /** How many digits Python reads or writes in one number. */
  const INT_DIGITS := 4300

  /** BadNumber: what `isdigit` accepts and `int` does not, such as superscripts, or too many digits. */
  datatype Reading = NotNumbered | Number(n: nat) | BadNumber

  /** How `isdigit` and `int` read a text with characters beyond ASCII: anything at all here. */
  type Beyond = string -> Reading

  predicate IsAscii(s: string) {
    forall i :: 0 <= i < |s| ==> s[i] as int < 128
  }

  /** The number of an id: an `e`, then digits. */
  function IdNumber(beyond: Beyond, id: string): Reading {
    if |id| < 2 || id[0] != 'e' then NotNumbered
    else if AllDigits(id[1..]) then if |id| - 1 <= INT_DIGITS then Number(Value(id[1..])) else BadNumber
    else if IsAscii(id[1..]) then NotNumbered
    else beyond(id[1..])
  }

  /** `f"e{n:02d}"` */
  function MintId(n: nat): string {
    "e" + if n < 10 then "0" + Digits(n) else Digits(n)
  }

  /** Whether that can be written. */
  predicate Writable(n: nat) {
    |Digits(n)| <= INT_DIGITS
  }

  lemma MintedNumber(beyond: Beyond, n: nat)
    requires Writable(n)
    ensures IdNumber(beyond, MintId(n)) == Number(n)
  {
    ValueOfDigits(n);
    var tail := if n < 10 then "0" + Digits(n) else Digits(n);
    assert MintId(n)[1..] == tail;
    if n < 10 {
      assert AllDigits("0") && Value("0"[..0]) == 0 && Value("0") == 0;
      ValueAppend("0", Digits(n)[0]);
      assert tail == "0" + [Digits(n)[0]];
      assert Digits(n)[..0] == "";
    }
  }

  ghost predicate InUse(beyond: Beyond, rows: seq<Row>, n: nat) {
    exists i :: 0 <= i < |rows| && IdNumber(beyond, rows[i].id) == Number(n)
  }

  lemma InUseSplit(beyond: Beyond, rows: seq<Row>, k: nat)
    requires k < |rows|
    ensures forall n: nat :: InUse(beyond, rows[..k + 1], n) <==> InUse(beyond, rows[..k], n) || IdNumber(beyond, rows[k].id) == Number(n)
  {
    forall n: nat
      ensures InUse(beyond, rows[..k + 1], n) <==> InUse(beyond, rows[..k], n) || IdNumber(beyond, rows[k].id) == Number(n)
    {
      assert rows[..k + 1][k] == rows[k];
      assert forall i :: 0 <= i < k ==> rows[..k + 1][i] == rows[..k][i];
    }
  }

  // ---- commands as functions of the log ------------------------------------

  predicate LastIsOpen(rows: seq<Row>) {
    rows != [] && rows[|rows| - 1].closedUnix.None?
  }

  /** The highest id in use, or 0. */
  function MaxId(beyond: Beyond, rows: seq<Row>): (m: nat)
    ensures forall n: nat :: InUse(beyond, rows, n) ==> n <= m
    ensures m > 0 ==> InUse(beyond, rows, m)
  {
    if rows == [] then 0
    else
      var k := |rows| - 1;
      var before := MaxId(beyond, rows[..k]);
      InUseSplit(beyond, rows, k);
      assert rows[..k + 1] == rows;
      match IdNumber(beyond, rows[k].id)
      case Number(n) => if n > before then n else before
      case _ => before
  }

  predicate Readable(beyond: Beyond, rows: seq<Row>) {
    forall i :: 0 <= i < |rows| ==> !IdNumber(beyond, rows[i].id).BadNumber?
  }

  /** Every id can be read and the next one written. */
  predicate CanMint(beyond: Beyond, rows: seq<Row>) {
    Readable(beyond, rows) && Writable(MaxId(beyond, rows) + 1)
  }

  function Opened(beyond: Beyond, rows: seq<Row>, title: string, now: int, totals: Totals): seq<Row> {
    rows + [Row(MintId(MaxId(beyond, rows) + 1), title, now, totals, None, None)]
  }

  function Closed(rows: seq<Row>, now: int, totals: Totals): seq<Row>
    requires LastIsOpen(rows)
  {
    var k := |rows| - 1;
    rows[k := rows[k].(closedUnix := Some(now), closedTotals := Some(totals))]
  }

  /** `totals` is what the Cloud answers, or None when asking it fails. */
  datatype Command =
    | Open(title: string, now: int, totals: Option<Totals>)
    | Close(now: int, totals: Option<Totals>)

  function Execute(beyond: Beyond, rows: seq<Row>, c: Command): seq<Row> {
    if c.totals.None? then rows
    else
      match c
      case Open(title, now, totals) =>
        if LastIsOpen(rows) || !CanMint(beyond, rows) then rows else Opened(beyond, rows, title, now, totals.value)
      case Close(now, totals) => if LastIsOpen(rows) then Closed(rows, now, totals.value) else rows
  }

  class Log {
    const beyond: Beyond
    var rows: seq<Row>

    /** The log as the file holds it, whoever wrote it. */
    constructor (beyond: Beyond, rows: seq<Row>)
      ensures this.beyond == beyond && this.rows == rows
    {
      this.beyond, this.rows := beyond, rows;
    }

    method CmdOpen(title: string, now: int, totals: Option<Totals>) returns (r: Result<string, Exit>)
      modifies this
      ensures rows == Execute(beyond, old(rows), Open(title, now, totals))
      ensures r.Ok? <==> !LastIsOpen(old(rows)) && CanMint(beyond, old(rows)) && totals.Some?
      ensures r.Ok? ==> rows == old(rows) + [Row(r.value, title, now, totals.value, None, None)]
      ensures r.Ok? ==> forall i :: 0 <= i < |old(rows)| ==> old(rows)[i].id != r.value
      ensures r.Err? ==> rows == old(rows) && (r.error.StillOpen? <==> LastIsOpen(old(rows)))
      ensures r.Err? ==> (r.error.BadId? <==> !LastIsOpen(old(rows)) && !CanMint(beyond, old(rows)))
    {
      if LastIsOpen(rows) {
        return Err(StillOpen(rows[|rows| - 1].id));
      }
      var ids := UsedIds(beyond, rows);
      if ids.Err? {
        return Err(ids.error);
      }
      var used := ids.value;
      var next := 1;
      for i := 0 to |used|
        invariant 1 <= next && forall j :: 0 <= j < i ==> used[j] < next
        invariant next > 1 ==> InUse(beyond, rows, next - 1)
      {
        assert used[i] in used;
        if used[i] >= next {
          next := used[i] + 1;
        }
      }
      assert next == MaxId(beyond, rows) + 1 by {
        assert MaxId(beyond, rows) > 0 ==> MaxId(beyond, rows) in used;
      }
      if !Writable(next) {
        return Err(BadId);
      }
      MintedIsFresh(beyond, rows, next);
      if totals.None? {
        return Err(CloudUnreachable);
      }
      rows := rows + [Row(MintId(next), title, now, totals.value, None, None)];
      return Ok(rows[|rows| - 1].id);
    }

    method CmdClose(now: int, totals: Option<Totals>) returns (r: Result<(), Exit>)
      modifies this
      ensures rows == Execute(beyond, old(rows), Close(now, totals))
      ensures r.Ok? <==> LastIsOpen(old(rows)) && totals.Some?
      ensures r.Ok? ==>
                var k := |old(rows)| - 1;
                && |rows| == k + 1 && rows[..k] == old(rows)[..k]
                && rows[k].closedUnix == Some(now) && rows[k].closedTotals == Some(totals.value)
                && rows[k].id == old(rows)[k].id && rows[k].title == old(rows)[k].title
                && rows[k].openedUnix == old(rows)[k].openedUnix && rows[k].openedTotals == old(rows)[k].openedTotals
      ensures r.Err? ==> rows == old(rows) && (r.error.NoOpenEpoch? <==> !LastIsOpen(old(rows)))
    {
      if !LastIsOpen(rows) {
        return Err(NoOpenEpoch);
      }
      if totals.None? {
        return Err(CloudUnreachable);
      }
      var k := |rows| - 1;
      rows := rows[k := rows[k].(closedUnix := Some(now), closedTotals := Some(totals.value))];
      return Ok(());
    }
  }

  /** The numbers of all ids in use, or the failure to read one. */
  method UsedIds(beyond: Beyond, rows: seq<Row>) returns (r: Result<seq<nat>, Exit>)
    ensures r.Ok? <==> Readable(beyond, rows)
    ensures r.Ok? ==> forall n: nat :: n in r.value <==> InUse(beyond, rows, n)
    ensures r.Err? ==> r.error == BadId
  {
    var used := [];
    for i := 0 to |rows|
      invariant forall n: nat :: n in used <==> InUse(beyond, rows[..i], n)
      invariant Readable(beyond, rows[..i])
    {
      InUseSplit(beyond, rows, i);
      var number := IdNumber(beyond, rows[i].id);
      if number.BadNumber? {
        return Err(BadId);
      }
      if number.Number? {
        used := used + [number.n];
      }
    }
    assert rows[..|rows|] == rows;
    return Ok(used);
  }

  lemma FreshAbove(beyond: Beyond, rows: seq<Row>, n: nat, id: string)
    requires IdNumber(beyond, id) == Number(n) && n > MaxId(beyond, rows)
    ensures forall i :: 0 <= i < |rows| ==> rows[i].id != id
  {
    assert !InUse(beyond, rows, n);
    assert forall i :: 0 <= i < |rows| ==> IdNumber(beyond, rows[i].id) != Number(n);
  }

  /** The minted id, and any later one, differs from every id present, whatever hand wrote the rows. */
  lemma MintedIsFresh(beyond: Beyond, rows: seq<Row>, n: nat)
    requires Writable(n) && n > MaxId(beyond, rows)
    ensures forall i :: 0 <= i < |rows| ==> rows[i].id != MintId(n)
  {
    MintedNumber(beyond, n);
    FreshAbove(beyond, rows, n, MintId(n));
  }

  /** How an id looks: two digits at least. */
  lemma MintedForm(n: nat)
    ensures n < 10 ==> MintId(n) == ['e', '0', '0' + n as char]
    ensures n >= 10 ==> MintId(n) == ['e'] + Digits(n) && |Digits(n)| >= 2
  {
  }

  /** An opening takes the number after the highest in use, and 1 when none is. */
  lemma OpenedNumber(beyond: Beyond, rows: seq<Row>, title: string, now: int, totals: Totals, n: nat)
    requires CanMint(beyond, rows)
    requires n >= 1 && (forall k: nat :: InUse(beyond, rows, k) ==> k < n) && (n > 1 ==> InUse(beyond, rows, n - 1))
    ensures Opened(beyond, rows, title, now, totals) == rows + [Row(MintId(n), title, now, totals, None, None)]
  {
    assert MaxId(beyond, rows) + 1 == n;
  }

  // ---- invariants of the log -----------------------------------------------

  ghost predicate OnlyLastOpen(rows: seq<Row>) {
    forall i :: 0 <= i < |rows| - 1 ==> rows[i].closedUnix.Some?
  }

  ghost predicate DistinctIds(rows: seq<Row>) {
    forall i, j :: 0 <= i < j < |rows| ==> rows[i].id != rows[j].id
  }

  /** A log as a clock that never runs back writes it; times are after 1970. */
  ghost predicate InOrder(rows: seq<Row>) {
    && (forall i :: 0 <= i < |rows| ==>
          0 < rows[i].openedUnix && (rows[i].closedUnix.Some? ==> rows[i].openedUnix <= rows[i].closedUnix.value))
    && (forall i, j :: 0 <= i < j < |rows| && rows[i].closedUnix.Some? ==>
          rows[i].closedUnix.value <= rows[j].openedUnix)
  }

  ghost predicate NoLaterThan(rows: seq<Row>, now: int) {
    forall i :: 0 <= i < |rows| ==>
      rows[i].openedUnix <= now && (rows[i].closedUnix.Some? ==> rows[i].closedUnix.value <= now)
  }

  lemma OpenKeeps(beyond: Beyond, rows: seq<Row>, title: string, now: int, totals: Totals)
    requires OnlyLastOpen(rows) && !LastIsOpen(rows) && CanMint(beyond, rows)
    ensures OnlyLastOpen(Opened(beyond, rows, title, now, totals))
    ensures DistinctIds(rows) ==> DistinctIds(Opened(beyond, rows, title, now, totals))
  {
    MintedIsFresh(beyond, rows, MaxId(beyond, rows) + 1);
  }

  lemma CloseKeeps(rows: seq<Row>, now: int, totals: Totals)
    requires OnlyLastOpen(rows) && LastIsOpen(rows)
    ensures OnlyLastOpen(Closed(rows, now, totals))
    ensures DistinctIds(rows) ==> DistinctIds(Closed(rows, now, totals))
  {
    var k := |rows| - 1;
    assert forall i :: 0 <= i < k ==> Closed(rows, now, totals)[i] == rows[i];
  }

  lemma OpenKeepsOrder(beyond: Beyond, rows: seq<Row>, title: string, now: int, totals: Totals)
    requires InOrder(rows) && NoLaterThan(rows, now) && 0 < now
    ensures InOrder(Opened(beyond, rows, title, now, totals)) && NoLaterThan(Opened(beyond, rows, title, now, totals), now)
  {
  }

  lemma CloseKeepsOrder(rows: seq<Row>, now: int, totals: Totals)
    requires InOrder(rows) && NoLaterThan(rows, now) && 0 < now && LastIsOpen(rows)
    ensures InOrder(Closed(rows, now, totals)) && NoLaterThan(Closed(rows, now, totals), now)
  {
    var k := |rows| - 1;
    assert forall i :: 0 <= i < k ==> Closed(rows, now, totals)[i] == rows[i];
  }

  lemma ExecuteKeeps(beyond: Beyond, rows: seq<Row>, c: Command)
    requires OnlyLastOpen(rows)
    ensures OnlyLastOpen(Execute(beyond, rows, c))
    ensures DistinctIds(rows) ==> DistinctIds(Execute(beyond, rows, c))
    ensures InOrder(rows) && NoLaterThan(rows, c.now) && 0 < c.now ==>
              InOrder(Execute(beyond, rows, c)) && NoLaterThan(Execute(beyond, rows, c), c.now)
  {
    if c.totals.Some? && c.Open? && !LastIsOpen(rows) && CanMint(beyond, rows) {
      OpenKeeps(beyond, rows, c.title, c.now, c.totals.value);
      if InOrder(rows) && NoLaterThan(rows, c.now) && 0 < c.now {
        OpenKeepsOrder(beyond, rows, c.title, c.now, c.totals.value);
      }
    } else if c.totals.Some? && c.Close? && LastIsOpen(rows) {
      CloseKeeps(rows, c.now, c.totals.value);
      if InOrder(rows) && NoLaterThan(rows, c.now) && 0 < c.now {
        CloseKeepsOrder(rows, c.now, c.totals.value);
      }
    }
  }

  // ---- runs, with edits by hand in between ---------------------------------------

  /** A command, or an edit of the file by hand: a row deleted, or the whole log written anew. */
  datatype Step =
    | Ran(command: Command)
    | RowDeleted(row: nat, at: int)
    | Rewritten(rows: seq<Row>, at: int)

  function TimeOf(s: Step): int {
    match s
    case Ran(c) => c.now
    case RowDeleted(_, at) => at
    case Rewritten(_, at) => at
  }

  function Without(rows: seq<Row>, k: nat): seq<Row> {
    if k < |rows| then rows[..k] + rows[k + 1..] else rows
  }

  function After(beyond: Beyond, rows: seq<Row>, s: Step): seq<Row> {
    match s
    case Ran(c) => Execute(beyond, rows, c)
    case RowDeleted(k, _) => Without(rows, k)
    case Rewritten(edited, _) => edited
  }

  function Run(beyond: Beyond, rows: seq<Row>, steps: seq<Step>): seq<Row>
    decreases |steps|
  {
    if steps == [] then rows
    else After(beyond, Run(beyond, rows, steps[..|steps| - 1]), steps[|steps| - 1])
  }

  /** A log anyone could have left behind: at most its last epoch open, no id twice. */
  ghost predicate Tidy(rows: seq<Row>) {
    OnlyLastOpen(rows) && DistinctIds(rows)
  }

  ghost predicate InOrderUntil(rows: seq<Row>, now: int) {
    InOrder(rows) && NoLaterThan(rows, now)
  }

  ghost predicate TidyEdits(steps: seq<Step>) {
    forall i :: 0 <= i < |steps| && steps[i].Rewritten? ==> Tidy(steps[i].rows)
  }

  /** The clock never runs back, and what is written by hand agrees with it. */
  ghost predicate ClockRunsForward(steps: seq<Step>) {
    && (forall i :: 0 <= i < |steps| ==> 0 < TimeOf(steps[i]))
    && (forall i, j :: 0 <= i < j < |steps| ==> TimeOf(steps[i]) <= TimeOf(steps[j]))
    && (forall i :: 0 <= i < |steps| && steps[i].Rewritten? ==> InOrderUntil(steps[i].rows, steps[i].at))
  }

  lemma DeleteKeeps(rows: seq<Row>, k: nat)
    ensures OnlyLastOpen(rows) ==> OnlyLastOpen(Without(rows, k))
    ensures DistinctIds(rows) ==> DistinctIds(Without(rows, k))
    ensures InOrder(rows) ==> InOrder(Without(rows, k))
    ensures forall now :: NoLaterThan(rows, now) ==> NoLaterThan(Without(rows, k), now)
  {
    if k < |rows| {
      var left := Without(rows, k);
      assert forall i :: 0 <= i < |left| ==> left[i] == rows[if i < k then i else i + 1];
    }
  }

  lemma StepKeeps(beyond: Beyond, rows: seq<Row>, s: Step)
    requires Tidy(rows) && (s.Rewritten? ==> Tidy(s.rows))
    ensures Tidy(After(beyond, rows, s))
    ensures InOrderUntil(rows, TimeOf(s)) && 0 < TimeOf(s) && (s.Rewritten? ==> InOrderUntil(s.rows, s.at)) ==>
              InOrderUntil(After(beyond, rows, s), TimeOf(s))
  {
    match s
    case Ran(c) => ExecuteKeeps(beyond, rows, c);
    case RowDeleted(k, _) => DeleteKeeps(rows, k);
    case Rewritten(_, _) =>
  }

  /** The times a run of steps starts and ends with. */
  function StartTime(steps: seq<Step>, now: int): int {
    if steps == [] then now else TimeOf(steps[0])
  }

  function EndTime(steps: seq<Step>, now: int): int {
    if steps == [] then now else TimeOf(steps[|steps| - 1])
  }

  /**
   * From any tidy log, after any commands and any edits by hand (deletions are
   * free; a rewritten log must itself be tidy): only the last epoch can be open
   * and no two share an id; with a clock that runs forward the epochs follow
   * each other.
   */
  lemma {:induction false} RunKeeps(beyond: Beyond, rows: seq<Row>, steps: seq<Step>, now: int)
    requires Tidy(rows) && TidyEdits(steps)
    ensures Tidy(Run(beyond, rows, steps))
    ensures ClockRunsForward(steps) && InOrderUntil(rows, StartTime(steps, now)) ==>
              InOrderUntil(Run(beyond, rows, steps), EndTime(steps, now))
    decreases |steps|
  {
    if steps != [] {
      var k := |steps| - 1;
      var before := steps[..k];
      RunKeeps(beyond, rows, before, StartTime(steps, now));
      StepKeeps(beyond, Run(beyond, rows, before), steps[k]);
      if ClockRunsForward(steps) && InOrderUntil(rows, StartTime(steps, now)) {
        assert forall i :: 0 <= i < k ==> before[i] == steps[i];
        assert EndTime(before, StartTime(steps, now)) <= TimeOf(steps[k]);
      }
    }
  }

  /** Whatever was done to the log before, by command or by hand, an opening mints an id no row has. */
  lemma OpenedIsFresh(beyond: Beyond, rows: seq<Row>, steps: seq<Step>, c: Command)
    requires c.Open?
    ensures
      var before := Run(beyond, rows, steps);
      var after := Run(beyond, rows, steps + [Ran(c)]);
      after == before
      || (|after| == |before| + 1 && after[..|before|] == before
          && forall i :: 0 <= i < |before| ==> before[i].id != after[|before|].id)
  {
    var before := Run(beyond, rows, steps);
    assert (steps + [Ran(c)])[..|steps|] == steps;
    if CanMint(beyond, before) {
      MintedIsFresh(beyond, before, MaxId(beyond, before) + 1);
    }
  }

  // ---- which epoch a time belongs to ----------------------------------------

  /** Python's `or`: a closing time of 0 counts as absent. */
  function EndOf(r: Row): int {
    if r.closedUnix.Some? && r.closedUnix.value != 0 then r.closedUnix.value else r.openedUnix + 86400
  }

  predicate Covers(r: Row, time: int) {
    r.openedUnix - 5 <= time <= EndOf(r) + 5
  }

  /** Five seconds on either side; an open epoch, or one whose closing time reads 0, lasts a day. */
  lemma WindowOf(r: Row, time: int)
    ensures r.closedUnix.Some? && r.closedUnix.value != 0 ==>
              (Covers(r, time) <==> r.openedUnix - 5 <= time <= r.closedUnix.value + 5)
    ensures r.closedUnix.None? || r.closedUnix.value == 0 ==>
              (Covers(r, time) <==> r.openedUnix - 5 <= time <= r.openedUnix + 86405)
  {
  }

  method EpochOf(mtime: int, rows: seq<Row>) returns (i: nat)
    ensures i <= |rows| && forall j :: 0 <= j < i ==> !Covers(rows[j], mtime)
    ensures i < |rows| ==> Covers(rows[i], mtime)
  {
    i := 0;
    while i < |rows|
      invariant i <= |rows| && forall j :: 0 <= j < i ==> !Covers(rows[j], mtime)
    {
      if Covers(rows[i], mtime) {
        return;
      }
      i := i + 1;
    }
  }

  /** No time belongs to two closed epochs. */
  ghost predicate Unambiguous(rows: seq<Row>) {
    forall i, j, time :: 0 <= i < j < |rows| && rows[i].closedUnix.Some? && rows[j].closedUnix.Some? ==>
      !(Covers(rows[i], time) && Covers(rows[j], time))
  }

  /** More than ten seconds pass between a closing and the next opening that is closed too. */
  ghost predicate Spaced(rows: seq<Row>) {
    forall i :: 0 <= i < |rows| - 1 && rows[i].closedUnix.Some? && rows[i + 1].closedUnix.Some? ==>
      rows[i + 1].openedUnix - rows[i].closedUnix.value > 10
  }

  /** Times are assigned without ambiguity exactly when the epochs are spaced. */
  lemma UnambiguousIffSpaced(rows: seq<Row>)
    requires InOrder(rows) && OnlyLastOpen(rows)
    ensures Unambiguous(rows) <==> Spaced(rows)
  {
    if Spaced(rows) {
      forall i, j, time | 0 <= i < j < |rows| && rows[i].closedUnix.Some? && rows[j].closedUnix.Some?
        ensures !(Covers(rows[i], time) && Covers(rows[j], time))
      {
        assert rows[i + 1].closedUnix.Some?;
        assert rows[i + 1].openedUnix <= rows[j].openedUnix;
      }
    }
    if Unambiguous(rows) {
      forall i | 0 <= i < |rows| - 1 && rows[i].closedUnix.Some? && rows[i + 1].closedUnix.Some?
        ensures rows[i + 1].openedUnix - rows[i].closedUnix.value > 10
      {
        var time := rows[i + 1].openedUnix - 5;
        assert !(Covers(rows[i], time) && Covers(rows[i + 1], time));
      }
    }
  }

  lemma FirstIdsWritable(beyond: Beyond)
    ensures Writable(1) && Writable(2) && IdNumber(beyond, MintId(1)) == Number(1)
    ensures CanMint(beyond, [])
  {
    assert |Digits(1)| == 1 && |Digits(2)| == 1;
    MintedNumber(beyond, 1);
    assert MaxId(beyond, []) == 0;
  }

  lemma SecondMints(beyond: Beyond, row: Row)
    requires row.id == MintId(1)
    ensures CanMint(beyond, [row])
  {
    FirstIdsWritable(beyond);
    assert [row][..0] == [] && MaxId(beyond, [row]) == 1;
  }

  lemma RunMore(beyond: Beyond, rows: seq<Row>, steps: seq<Step>, s: Step)
    ensures Run(beyond, rows, steps + [s]) == After(beyond, Run(beyond, rows, steps), s)
  {
    assert (steps + [s])[..|steps|] == steps;
  }

  lemma RunFour(beyond: Beyond, steps: seq<Step>)
    requires |steps| == 4
    ensures Run(beyond, [], steps) ==
            After(beyond, After(beyond, After(beyond, After(beyond, [], steps[0]), steps[1]), steps[2]), steps[3])
  {
    assert [] + [steps[0]] == steps[..1] && steps[..1] + [steps[1]] == steps[..2];
    assert steps[..2] + [steps[2]] == steps[..3] && steps[..3] + [steps[3]] == steps;
    RunMore(beyond, [], [], steps[0]);
    RunMore(beyond, [], steps[..1], steps[1]);
    RunMore(beyond, [], steps[..2], steps[2]);
    RunMore(beyond, [], steps[..3], steps[3]);
  }

  /** Opening and then closing adds one closed row, each end with its own time and totals. */
  lemma OpenedAndClosed(beyond: Beyond, rows: seq<Row>, from: int, to: int, before: Totals, after: Totals)
    requires !LastIsOpen(rows) && CanMint(beyond, rows)
    ensures
      Execute(beyond, Execute(beyond, rows, Open("", from, Some(before))), Close(to, Some(after)))
      == rows + [Row(MintId(MaxId(beyond, rows) + 1), "", from, before, Some(to), Some(after))]
  {
  }

  function TwoEpochs(totals: Totals): seq<Step> {
    [Ran(Open("", 100, Some(totals))), Ran(Close(200, Some(totals))),
     Ran(Open("", 205, Some(totals))), Ran(Close(300, Some(totals)))]
  }

  /** Epochs five seconds apart: 203 lies in both. */
  lemma CloseEpochsOverlap(beyond: Beyond, totals: Totals, rows: seq<Row>)
    requires rows == Run(beyond, [], TwoEpochs(totals))
    ensures |rows| == 2 && rows[0].closedUnix.Some? && rows[1].closedUnix.Some?
    ensures Covers(rows[0], 203) && Covers(rows[1], 203)
  {
    RunFour(beyond, TwoEpochs(totals));
    FirstIdsWritable(beyond);
    OpenedAndClosed(beyond, [], 100, 200, totals, totals);
    var first := Row(MintId(1), "", 100, totals, Some(200), Some(totals));
    assert [] + [first] == [first] && MaxId(beyond, []) == 0;
    SecondMints(beyond, first);
    OpenedAndClosed(beyond, [first], 205, 300, totals, totals);
  }

  /**
   * On a spaced log that commands and edits left behind, a time in a closed
   * epoch's window belongs to that epoch alone among the closed ones, and is
   * assigned to it: no earlier row covers the time.
   */
  lemma SpacedEpochIsFound(beyond: Beyond, start: seq<Row>, steps: seq<Step>, rows: seq<Row>, i: nat, time: int)
    requires Tidy(start) && TidyEdits(steps) && ClockRunsForward(steps) && InOrderUntil(start, StartTime(steps, time))
    requires rows == Run(beyond, start, steps) && Spaced(rows)
    requires i < |rows| && rows[i].closedUnix.Some? && Covers(rows[i], time)
    ensures forall j :: 0 <= j < |rows| && j != i && rows[j].closedUnix.Some? ==> !Covers(rows[j], time)
    ensures forall j :: 0 <= j < i ==> !Covers(rows[j], time)
  {
    RunKeeps(beyond, start, steps, time);
    UnambiguousIffSpaced(rows);
  }
}
