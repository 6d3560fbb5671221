/**
 * The decoder against sections 9.2.5 and 9.2.6 of the WHATWG HTML Standard: what
 * the Standard makes of a finished stream, and exactly when the decoder agrees.
 */
module SseStandard {
  import opened Wrappers
  import opened Text
  import opened Bytes
  import opened SseSpec
  import opened SseDecoder
  import opened SseProperties
  import opened Utf8Lossy

  // ---- the lines of a finished stream ------------------------------------------

  predicate EndsInCr(bs: seq<Byte>) {
    bs != [] && bs[|bs| - 1] == CR
  }

  /** Once the stream is over, a CR at its very end has ended a line too. */
  function FinishedLines(l: Lines): seq<seq<Byte>> {
    if EndsInCr(l.rest) then l.lines + [l.rest[..|l.rest| - 1]] else l.lines
  }

  /** A CR ends a line unless an LF follows it. */
  ghost predicate EndsFinally(end: seq<Byte>, tail: seq<Byte>) {
    end in {[LF], [CR, LF], [CR]} && (end == [CR] && tail != [] ==> tail[0] != LF)
  }

  /** The whole stream as ended lines and, last, bytes that no line end follows. */
  ghost predicate ReadsFinally(bs: seq<Byte>, ls: seq<Terminated>, rest: seq<Byte>)
    decreases ls
  {
    if ls == [] then bs == rest && Clean(rest)
    else
      && Clean(ls[0].text)
      && ls[0].text + ls[0].end <= bs
      && var tail := bs[|ls[0].text| + |ls[0].end|..];
      && EndsFinally(ls[0].end, tail)
      && ReadsFinally(tail, ls[1..], rest)
  }

  lemma FinishedPrepend(text: seq<Byte>, l: Lines)
    ensures FinishedLines(Prepend(text, l)) == [text] + FinishedLines(l)
  {
  }

  lemma FinishedByCr(text: seq<Byte>)
    requires Clean(text)
    ensures FinishedLines(SplitLines(text + [CR])) == [text]
  {
    assert (text + [CR])[..|text|] == text;
    SplitUndecided(text + [CR]);
  }

  /** However a finished stream is read, it has these lines. */
  lemma {:induction false} FinalReadingIsUnique(bs: seq<Byte>, ls: seq<Terminated>, rest: seq<Byte>)
    requires ReadsFinally(bs, ls, rest)
    ensures Texts(ls) == FinishedLines(SplitLines(bs))
    decreases ls
  {
    if ls == [] {
      SplitUndecided(rest);
      assert CR !in rest;
    } else {
      var text, end := ls[0].text, ls[0].end;
      var tail := bs[|text| + |end|..];
      assert bs == text + end + tail;
      FinalReadingIsUnique(tail, ls[1..], rest);
      if end == [CR] && tail == [] {
        assert bs == text + [CR];
        FinishedByCr(text);
        assert ls[1..] == [];
      } else {
        SplitFirst(text, end, tail);
        FinishedPrepend(text, SplitLines(tail));
      }
    }
  }

  // ---- the Standard's events -----------------------------------------------------

  const BOM: seq<Byte> := [0xEF, 0xBB, 0xBF]

  function WithoutBom(bs: seq<Byte>): seq<Byte> {
    if BOM <= bs then bs[3..] else bs
  }

  /** The Standard's event type of a block: an empty last value means the default type. */
  function StandardType(block: seq<Field>): Option<string> {
    var last := LastType(None, block);
    if last == Some("") then None else last
  }

  /** The events of a sequence of fields as the Standard types them; all else as in `BlockEvents`. */
  function StandardEvents(id: Option<string>, fs: seq<Field>): seq<SseEvent>
    decreases |fs|
  {
    var n := FirstBlank(fs);
    if n == |fs| then []
    else
      var block := fs[..n];
      var data := DataValues(block);
      (if data == [] then [] else [SseEvent(LastId(id, block), StandardType(block), Join(data, "\n"))])
      + StandardEvents(LastId(id, block), fs[n + 1..])
  }

  /** No block that yields an event has an empty last `event:` value. */
  predicate NoEmptyTypes(fs: seq<Field>)
    decreases |fs|
  {
    var n := FirstBlank(fs);
    n == |fs| || ((DataValues(fs[..n]) == [] || LastType(None, fs[..n]) != Some("")) && NoEmptyTypes(fs[n + 1..]))
  }

  /** What the Standard makes of a finished stream; one leading byte order mark is no part of it. */
  function StandardBatch(decode: seq<Byte> -> string, bs: seq<Byte>): seq<SseEvent> {
    StandardEvents(None, Fields(decode, FinishedLines(SplitLines(WithoutBom(bs)))))
  }

  // ---- where the event type departs from it --------------------------------------

  function Retyped(es: seq<SseEvent>): seq<SseEvent> {
    seq(|es|, i requires 0 <= i < |es| => if es[i].event == Some("") then es[i].(event := None) else es[i])
  }

  lemma RetypedAppend(a: seq<SseEvent>, b: seq<SseEvent>)
    ensures Retyped(a + b) == Retyped(a) + Retyped(b)
  {
  }

  /** Only the type can differ, and only by being empty instead of absent. */
  lemma {:induction false} RetypedIsStandard(id: Option<string>, fs: seq<Field>)
    ensures Retyped(BlockEvents(id, fs)) == StandardEvents(id, fs)
    decreases |fs|
  {
    var n := FirstBlank(fs);
    if n < |fs| {
      var block := fs[..n];
      var data := DataValues(block);
      var first := if data == [] then [] else [SseEvent(LastId(id, block), LastType(None, block), Join(data, "\n"))];
      RetypedIsStandard(LastId(id, block), fs[n + 1..]);
      RetypedAppend(first, BlockEvents(LastId(id, block), fs[n + 1..]));
    }
  }

  lemma PrependKeeps<T>(a: seq<T>, b: seq<T>, c: seq<T>, d: seq<T>)
    requires |a| == |c|
    ensures a + b == c + d <==> a == c && b == d
  {
    if a + b == c + d {
      assert a == (a + b)[..|a|] && b == (a + b)[|a|..];
      assert c == (c + d)[..|c|] && d == (c + d)[|c|..];
    }
  }

  /** The events are the Standard's if and only if no block that yields one ends on an empty type. */
  lemma {:induction false} StandardIffNoEmptyTypes(id: Option<string>, fs: seq<Field>)
    ensures BlockEvents(id, fs) == StandardEvents(id, fs) <==> NoEmptyTypes(fs)
    decreases |fs|
  {
    var n := FirstBlank(fs);
    if n < |fs| {
      var block := fs[..n];
      var data, after := DataValues(block), LastId(id, block);
      StandardIffNoEmptyTypes(after, fs[n + 1..]);
      if data == [] {
        assert [] + BlockEvents(after, fs[n + 1..]) == BlockEvents(after, fs[n + 1..]);
        assert [] + StandardEvents(after, fs[n + 1..]) == StandardEvents(after, fs[n + 1..]);
      } else {
        PrependKeeps([SseEvent(after, LastType(None, block), Join(data, "\n"))], BlockEvents(after, fs[n + 1..]),
                     [SseEvent(after, StandardType(block), Join(data, "\n"))], StandardEvents(after, fs[n + 1..]));
      }
    }
  }

  // ---- where the end of the stream does --------------------------------------------

  /** The fields after the last blank line. */
  function OpenBlock(fs: seq<Field>): seq<Field>
    decreases |fs|
  {
    var n := FirstBlank(fs);
    if n == |fs| then fs else OpenBlock(fs[n + 1..])
  }

  /** The end of the stream holds back a blank line that would close a block with data. */
  predicate LosesEvent(decode: seq<Byte> -> string, l: Lines) {
    && EndsInCr(l.rest) && Classify(decode(l.rest[..|l.rest| - 1])) == Blank
    && DataValues(OpenBlock(Fields(decode, l.lines))) != []
  }

  lemma OneBlockMore(id: Option<string>, block: seq<Field>, f: Field)
    requires Blank !in block
    ensures BlockEvents(id, block) == []
    ensures |BlockEvents(id, block + [f])| == if f == Blank && DataValues(block) != [] then 1 else 0
  {
    FirstBlankAt(block, []);
    assert block + [] == block;
    if f == Blank {
      BlocksSplit(id, block, []);
      assert [Blank] + [] == [Blank];
    } else {
      FirstBlankAt(block + [f], []);
      assert block + [f] + [] == block + [f];
    }
  }

  /** `more` is `some` with `n` events behind it. */
  ghost predicate Adds(some: seq<SseEvent>, more: seq<SseEvent>, n: nat) {
    some <= more && |more| == |some| + n
  }

  lemma AddsBehind(first: seq<SseEvent>, some: seq<SseEvent>, more: seq<SseEvent>, n: nat)
    requires Adds(some, more, n)
    ensures Adds(first + some, first + more, n)
  {
  }

  lemma AddsAfterBlock(id: Option<string>, block: seq<Field>, some: seq<Field>, more: seq<Field>, n: nat)
    requires Blank !in block && Adds(BlockEvents(LastId(id, block), some), BlockEvents(LastId(id, block), more), n)
    ensures Adds(BlockEvents(id, block + ([Blank] + some)), BlockEvents(id, block + ([Blank] + more)), n)
  {
    var data := DataValues(block);
    var first := if data == [] then [] else [SseEvent(LastId(id, block), LastType(None, block), Join(data, "\n"))];
    BlocksSplit(id, block, some);
    BlocksSplit(id, block, more);
    AddsBehind(first, BlockEvents(LastId(id, block), some), BlockEvents(LastId(id, block), more), n);
  }

  function ClosedBy(fs: seq<Field>, f: Field): nat {
    if f == Blank && DataValues(OpenBlock(fs)) != [] then 1 else 0
  }

  lemma CutAtBlank(fs: seq<Field>, f: Field, n: nat)
    requires n < |fs| && fs[n] == Blank
    ensures fs == fs[..n] + ([Blank] + fs[n + 1..])
    ensures fs + [f] == fs[..n] + ([Blank] + (fs[n + 1..] + [f]))
  {
  }

  /** One more field yields one more event when it closes a block with data, and none otherwise. */
  lemma {:induction false} OneMoreField(id: Option<string>, fs: seq<Field>, f: Field)
    ensures Adds(BlockEvents(id, fs), BlockEvents(id, fs + [f]), ClosedBy(fs, f))
    decreases |fs|
  {
    var n := FirstBlank(fs);
    if n == |fs| {
      assert fs[..n] == fs;
      OneBlockMore(id, fs, f);
    } else {
      var block, more := fs[..n], fs[n + 1..];
      CutAtBlank(fs, f, n);
      OneMoreField(LastId(id, block), more, f);
      AddsAfterBlock(id, block, more, more + [f], ClosedBy(more, f));
    }
  }

  lemma FinishedFields(decode: seq<Byte> -> string, l: Lines)
    requires EndsInCr(l.rest)
    ensures Fields(decode, FinishedLines(l)) ==
            Fields(decode, l.lines) + [Classify(decode(l.rest[..|l.rest| - 1]))]
  {
  }

  /** The events of the decided lines are the first of the finished stream's, and all but at most one. */
  lemma FinishedEvents(decode: seq<Byte> -> string, l: Lines)
    ensures
      var events := BlockEvents(None, Fields(decode, l.lines));
      var finished := BlockEvents(None, Fields(decode, FinishedLines(l)));
      events <= finished && |finished| == |events| + if LosesEvent(decode, l) then 1 else 0
  {
    if EndsInCr(l.rest) {
      FinishedFields(decode, l);
      OneMoreField(None, Fields(decode, l.lines), Classify(decode(l.rest[..|l.rest| - 1])));
    }
  }

  lemma RetypedPrefix(a: seq<SseEvent>, b: seq<SseEvent>)
    requires a <= b
    ensures Retyped(a) <= Retyped(b)
  {
    assert b == a + b[|a|..];
    RetypedAppend(a, b[|a|..]);
  }

  /**
   * Against the Standard, for any finished stream without a leading byte order
   * mark and fed in any chunks: the decoder's events are the Standard's, but for
   * types that are empty here and absent there, and for a last event whose
   * closing blank line ends in a CR at the very end. They are exactly the
   * Standard's if and only if no event's block ends on an empty `event:` value
   * and no event is lost that way.
   */
  lemma DecoderMeetsStandard(decode: seq<Byte> -> string, chunks: seq<seq<Byte>>)
    ensures
      var events, bs := FeedAll(decode, FRESH, chunks).1, Concat(chunks);
      var l := SplitLines(bs);
      !(BOM <= bs) ==>
        && Retyped(events) <= StandardBatch(decode, bs)
        && |StandardBatch(decode, bs)| == |events| + (if LosesEvent(decode, l) then 1 else 0)
        && (events == StandardBatch(decode, bs)
            <==> NoEmptyTypes(Fields(decode, FinishedLines(l))) && !LosesEvent(decode, l))
  {
    var bs := Concat(chunks);
    var l := SplitLines(bs);
    var fs := Fields(decode, FinishedLines(l));
    DecoderRefinesBatch(decode, chunks);
    FinishedEvents(decode, l);
    RetypedPrefix(BatchEvents(decode, bs), BlockEvents(None, fs));
    RetypedIsStandard(None, fs);
    StandardIffNoEmptyTypes(None, fs);
  }

  // ---- where a byte order mark does --------------------------------------------------

  function FirstBehind(line: seq<Byte>, lines: seq<seq<Byte>>): seq<seq<Byte>> {
    if lines == [] then [] else [line + lines[0]] + lines[1..]
  }

  /** Clean bytes in front of a text only lengthen its first line. */
  lemma {:induction false} ScanBehind(front: seq<Byte>, line: seq<Byte>, bs: seq<Byte>)
    requires Clean(front) && Clean(line)
    ensures ScanLines(front + line, bs).lines == FirstBehind(front, ScanLines(line, bs).lines)
    decreases |bs|
  {
    if bs != [] && bs[0] != LF && bs[0] != CR {
      assert front + line + [bs[0]] == front + (line + [bs[0]]);
      ScanBehind(front, line + [bs[0]], bs[1..]);
    }
  }

  function FirstIgnored(fs: seq<Field>): seq<Field> {
    if fs == [] then [] else [Ignored] + fs[1..]
  }

  /** The decoder keeps the mark, which makes the first line no field. */
  ghost predicate KeepsMark(decode: seq<Byte> -> string, lines: seq<seq<Byte>>) {
    lines != [] ==> decode(BOM + lines[0]) == "\U{FEFF}" + decode(lines[0])
  }

  lemma MarkedFields(decode: seq<Byte> -> string, lines: seq<seq<Byte>>)
    requires KeepsMark(decode, lines)
    ensures Fields(decode, FirstBehind(BOM, lines)) == FirstIgnored(Fields(decode, lines))
  {
    if lines != [] {
      MarkedIsIgnored(decode(lines[0]));
    }
  }

  /** Behind a byte order mark, a stream has the events of the unmarked one with its first line ignored. */
  lemma BomHidesFirstLine(decode: seq<Byte> -> string, chunks: seq<seq<Byte>>, bs: seq<Byte>)
    requires KeepsMark(decode, SplitLines(bs).lines)
    ensures Concat(chunks) == BOM + bs ==>
              FeedAll(decode, FRESH, chunks).1 == BlockEvents(None, FirstIgnored(Fields(decode, SplitLines(bs).lines)))
  {
    DecoderRefinesBatch(decode, chunks);
    ScanContinues([], BOM, bs);
    ScanBehind(BOM, [], bs);
    assert BOM + [] == BOM && [] + BOM == BOM;
    MarkedFields(decode, SplitLines(bs).lines);
  }

  /** A line that begins with the mark is no field. */
  lemma MarkedIsIgnored(s: string)
    ensures Classify("\U{FEFF}" + s) == Ignored
  {
    var line := "\U{FEFF}" + s;
    var i := FirstIndex(line, ':');
    assert line[0] == '\U{FEFF}' && i > 0 && line[..i][0] == line[0];
    assert "data"[0] == 'd' && "event"[0] == 'e' && "id"[0] == 'i';
  }

  // ---- three streams on which they differ ------------------------------------------

  /** The events of a stream fed at once, when its fields are one block and a blank. */
  lemma OneBlockFed(decode: seq<Byte> -> string, bs: seq<Byte>, block: seq<Field>)
    requires Blank !in block && DataValues(block) != [] && LastId(None, block) == None
    requires Fields(decode, SplitLines(bs).lines) == block + [Blank] && SplitLines(bs).rest == [] && !(BOM <= bs)
    ensures FeedAll(decode, FRESH, [bs]).1 == [SseEvent(None, LastType(None, block), Join(DataValues(block), "\n"))]
    ensures StandardBatch(decode, bs) == [SseEvent(None, StandardType(block), Join(DataValues(block), "\n"))]
  {
    FedAtOnce(decode, bs);
    OneBlock(block);
  }

  lemma FedAtOnce(decode: seq<Byte> -> string, bs: seq<Byte>)
    ensures FeedAll(decode, FRESH, [bs]).1 == BatchEvents(decode, bs)
  {
    DecoderRefinesBatch(decode, [bs]);
    assert Concat([bs]) == bs by {
      assert bs + [] == bs;
    }
  }

  lemma OneBlock(block: seq<Field>)
    requires Blank !in block && DataValues(block) != [] && LastId(None, block) == None
    ensures BlockEvents(None, block + [Blank]) == [SseEvent(None, LastType(None, block), Join(DataValues(block), "\n"))]
    ensures StandardEvents(None, block + [Blank]) == [SseEvent(None, StandardType(block), Join(DataValues(block), "\n"))]
    ensures NoEmptyTypes(block + [Blank]) <==> LastType(None, block) != Some("")
  {
    FirstBlankAt(block, [Blank]);
    assert (block + [Blank])[..|block|] == block && (block + [Blank])[|block| + 1..] == [];
    assert StandardEvents(None, []) == [] && BlockEvents(None, []) == [] && NoEmptyTypes([]);
  }

  lemma DataBlock(v: string)
    ensures DataValues([Data(v)]) == [v] && Join([v], "\n") == v
    ensures LastId(None, [Data(v)]) == None && LastType(None, [Data(v)]) == None
  {
    assert [Data(v)][1..] == [] && [Data(v)][..0] == [];
  }

  lemma TypedBlock(v: string)
    ensures DataValues([Type(""), Data(v)]) == [v] && LastId(None, [Type(""), Data(v)]) == None
    ensures LastType(None, [Type(""), Data(v)]) == Some("")
  {
    var block := [Type(""), Data(v)];
    assert block[1..] == [Data(v)] && [Data(v)][1..] == [] && block[..1] == [Type("")] && [Type("")][..0] == [];
    assert DataValues([Data(v)]) == [v] && LastId(None, [Type("")]) == None;
  }

  /** A line, a line end, and what follows. */
  lemma LineFirst(text: seq<Byte>, tail: seq<Byte>)
    requires Clean(text)
    ensures SplitLines(text + [LF] + tail) == Prepend(text, SplitLines(tail))
  {
    SplitFirst(text, [LF], tail);
  }

  lemma LineAndBlank(text: seq<Byte>)
    requires Clean(text)
    ensures SplitLines(text + [LF] + [LF]) == Lines([text, []], [])
  {
    LineFirst(text, [LF]);
    LineFirst([], []);
    assert [] + [LF] + [] == [LF];
    SplitUndecided([]);
  }

  /** An `event:` field without a value, a `data:` field and a blank line, whatever decodes them. */
  lemma EmptyTypeIsKept(decode: seq<Byte> -> string, event: seq<Byte>, data: seq<Byte>, v: string)
    requires Clean(event) && Clean(data) && decode([]) == ""
    requires decode(event) == "event:" && Classify(decode(data)) == Data(v)
    requires event != [] && event[0] != 0xEF
    ensures
      var bs := event + [LF] + (data + [LF] + [LF]);
      && FeedAll(decode, FRESH, [bs]).1 == [SseEvent(None, Some(""), v)]
      && StandardBatch(decode, bs) == [SseEvent(None, None, v)]
  {
    var bs := event + [LF] + (data + [LF] + [LF]);
    LineFirst(event, data + [LF] + [LF]);
    LineAndBlank(data);
    EventForm();
    NoBom(bs);
    assert Fields(decode, [event] + [data, []]) == [Type(""), Data(v)] + [Blank];
    TypedBlock(v);
    OneBlockFed(decode, bs, [Type(""), Data(v)]);
    DataBlock(v);
  }

  lemma NoBom(bs: seq<Byte>)
    requires bs != [] && bs[0] != 0xEF
    ensures !(BOM <= bs)
  {
    assert BOM[0] == 0xEF;
  }

  lemma EventForm()
    ensures Classify("event:") == Type("")
  {
    ClassifyForms("event", "");
    assert "event" + ":" + "" == "event:";
  }

  /** A line and then a lone CR: the line is decided, the blank line behind it is not. */
  lemma HeldBack(text: seq<Byte>)
    requires Clean(text)
    ensures SplitLines(text + [CR] + [CR]) == Lines([text], [CR])
    ensures FinishedLines(SplitLines(text + [CR] + [CR])) == [text, []]
  {
    SplitUndecided([CR]);
    SplitFirst(text, [CR], [CR]);
    assert [text] + [] == [text];
    assert [CR][..0] == [] && [text] + [[]] == [text, []];
  }

  /** A `data:` field and two CRs: the decoder never sees the blank line, and the event is lost. */
  lemma LastCrLosesEvent(decode: seq<Byte> -> string, data: seq<Byte>, v: string)
    requires Clean(data) && decode([]) == "" && Classify(decode(data)) == Data(v)
    requires data != [] && data[0] != 0xEF
    ensures
      var bs := data + [CR] + [CR];
      && FeedAll(decode, FRESH, [bs]).1 == []
      && StandardBatch(decode, bs) == [SseEvent(None, None, v)]
      && NoEmptyTypes(Fields(decode, FinishedLines(SplitLines(bs))))
  {
    var bs := data + [CR] + [CR];
    HeldBack(data);
    FedAtOnce(decode, bs);
    NoBom(bs);
    assert Fields(decode, [data]) == [Data(v)] && Fields(decode, [data, []]) == [Data(v)] + [Blank];
    OneBlockMore(None, [Data(v)], Ignored);
    DataBlock(v);
    OneBlock([Data(v)]);
  }

  lemma IgnoredLineFed(decode: seq<Byte> -> string, text: seq<Byte>)
    requires Clean(text) && decode([]) == "" && Classify(decode(text)) == Ignored
    ensures FeedAll(decode, FRESH, [text + [LF] + [LF]]).1 == []
  {
    LineAndBlank(text);
    FedAtOnce(decode, text + [LF] + [LF]);
    assert Fields(decode, [text, []]) == [Ignored] + [Blank];
    OneBlockMore(None, [Ignored], Blank);
    assert [Ignored][1..] == [];
  }

  lemma DataLineStandard(decode: seq<Byte> -> string, data: seq<Byte>, v: string)
    requires Clean(data) && decode([]) == "" && Classify(decode(data)) == Data(v)
    ensures StandardEvents(None, Fields(decode, FinishedLines(SplitLines(data + [LF] + [LF])))) == [SseEvent(None, None, v)]
  {
    LineAndBlank(data);
    assert Fields(decode, [data, []]) == [Data(v)] + [Blank];
    DataBlock(v);
    OneBlock([Data(v)]);
  }

  /** A byte order mark, a `data:` field and a blank line: the mark hides the field, and the event is lost. */
  lemma BomLosesEvent(decode: seq<Byte> -> string, data: seq<Byte>, v: string)
    requires Clean(data) && decode([]) == "" && Classify(decode(data)) == Data(v)
    requires decode(BOM + data) == "\U{FEFF}" + decode(data)
    ensures
      var bs := BOM + (data + [LF] + [LF]);
      && FeedAll(decode, FRESH, [bs]).1 == []
      && StandardBatch(decode, bs) == [SseEvent(None, None, v)]
  {
    var bs := BOM + (data + [LF] + [LF]);
    assert bs == BOM + data + [LF] + [LF] && bs[3..] == data + [LF] + [LF];
    MarkedIsIgnored(decode(data));
    IgnoredLineFed(decode, BOM + data);
    DataLineStandard(decode, data, v);
  }

  // ---- the same streams in UTF-8 -----------------------------------------------------

  lemma DataForm()
    ensures Classify("data: x") == Data("x") && OneLine("data: x")
  {
    ClassifyWritten("data", "x");
    assert "data" + ": " + "x" == "data: x";
  }

  lemma MarkIsBom(c: char)
    requires c == '\U{FEFF}'
    ensures Utf8(c) == BOM
  {
  }

  /** The lossy decoder keeps a mark in front of any bytes. */
  lemma LossyKeepsMark(lines: seq<seq<Byte>>)
    ensures KeepsMark(FromUtf8Lossy, lines)
  {
    if lines != [] {
      MarkIsBom('\U{FEFF}');
      FirstOfUtf8('\U{FEFF}', lines[0]);
    }
  }

  lemma MarkedUtf8(line: string, marked: string, mark: char)
    requires mark == '\U{FEFF}' && marked == [mark] + line
    ensures BOM + ToUtf8(line) == ToUtf8(marked)
  {
    MarkIsBom(mark);
    assert marked[1..] == line;
  }

  /** An ASCII line in UTF-8. */
  lemma AsciiLine(line: string)
    requires OneLine(line) && line != "" && line[0] < '\U{80}'
    ensures
      var bs := ToUtf8(line);
      && Clean(bs) && FromUtf8Lossy(bs) == line && FromUtf8Lossy([]) == "" && bs != [] && bs[0] != 0xEF
      && FromUtf8Lossy(BOM + bs) == "\U{FEFF}" + line
  {
    OneLineIsClean(line);
    LossyUndoesUtf8(line);
    LossyUndoesUtf8("");
    MarkedUtf8(line, ['\U{FEFF}'] + line, '\U{FEFF}');
    LossyUndoesUtf8(['\U{FEFF}'] + line);
  }

  lemma StreamsOf(decode: seq<Byte> -> string, e: seq<Byte>, d: seq<Byte>, v: string)
    requires Clean(e) && Clean(d) && decode([]) == "" && e != [] && d != [] && e[0] != 0xEF && d[0] != 0xEF
    requires decode(e) == "event:" && Classify(decode(d)) == Data(v) && decode(BOM + d) == "\U{FEFF}" + decode(d)
    ensures FeedAll(decode, FRESH, [e + [LF] + (d + [LF] + [LF])]).1 == [SseEvent(None, Some(""), v)]
    ensures FeedAll(decode, FRESH, [d + [CR] + [CR]]).1 == []
    ensures FeedAll(decode, FRESH, [BOM + (d + [LF] + [LF])]).1 == []
  {
    EmptyTypeIsKept(decode, e, d, v);
    LastCrLosesEvent(decode, d, v);
    BomLosesEvent(decode, d, v);
  }

  /** Decoded as UTF-8, `event:` and `data: x` make all three streams. */
  lemma StreamsExist(event: string, data: string)
    requires event == "event:" && data == "data: x"
    ensures
      var e, d := ToUtf8(event), ToUtf8(data);
      && FeedAll(FromUtf8Lossy, FRESH, [e + [LF] + (d + [LF] + [LF])]).1 == [SseEvent(None, Some(""), "x")]
      && FeedAll(FromUtf8Lossy, FRESH, [d + [CR] + [CR]]).1 == []
      && FeedAll(FromUtf8Lossy, FRESH, [BOM + (d + [LF] + [LF])]).1 == []
  {
    DataForm();
    AsciiLine(event);
    AsciiLine(data);
    StreamsOf(FromUtf8Lossy, ToUtf8(event), ToUtf8(data), "x");
  }
}
