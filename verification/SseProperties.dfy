/**
 * The decoder's guarantees: chunking is invisible, the incremental state is a
 * faithful summary of the stream, and writing events then decoding returns them.
 */
module SseProperties {
  import opened Wrappers
  import opened Text
  import opened Bytes
  import opened SseSpec
  import opened SseDecoder

  // ---- chunking does not matter -------------------------------------------

  function FeedAll(decode: seq<Byte> -> string, st: DecoderState, chunks: seq<seq<Byte>>)
    : (DecoderState, seq<SseEvent>)
    decreases |chunks|
  {
    if chunks == [] then (st, [])
    else
      var (mid, first) := FeedResult(decode, st, chunks[0]);
      var (end, more) := FeedAll(decode, mid, chunks[1..]);
      (end, first + more)
  }

  function Concat(chunks: seq<seq<Byte>>): seq<Byte> {
    if chunks == [] then [] else chunks[0] + Concat(chunks[1..])
  }

  /** Scanning `a + b` is scanning `a`, then what `a` left undecided followed by `b`. */
  ghost predicate Continues(line: seq<Byte>, a: seq<Byte>, b: seq<Byte>) {
    var s := ScanLines(line, a);
    var t := SplitLines(s.rest + b);
    ScanLines(line, a + b) == Lines(s.lines + t.lines, t.rest)
  }

  lemma ContinuesUndecided(line: seq<Byte>, a: seq<Byte>, b: seq<Byte>)
    requires Clean(line) && (a == [] || a == [CR])
    ensures Continues(line, a, b)
  {
    ScanContinues([], line, a + b);
    assert [] + line == line && line + (a + b) == line + a + b && line + [] == line;
  }

  /** The line that ends with the first `n` bytes of `a` is there whatever follows. */
  lemma ContinuesPastEnd(line: seq<Byte>, a: seq<Byte>, b: seq<Byte>, n: nat)
    requires a != [] && (a[0] == LF || (a[0] == CR && |a| > 1))
    requires n == if a[0] == CR && a[1] == LF then 2 else 1
    requires Continues([], a[n..], b)
    ensures Continues(line, a, b)
  {
    var s := ScanLines([], a[n..]);
    assert (a + b)[n..] == a[n..] + b && (a + b)[0] == a[0] && (|a| > 1 ==> (a + b)[1] == a[1]);
    Associate([line], s.lines, SplitLines(s.rest + b).lines);
  }

  lemma {:induction false} ScanAppend(line: seq<Byte>, a: seq<Byte>, b: seq<Byte>)
    requires Clean(line)
    ensures Continues(line, a, b)
    decreases |a|
  {
    if a == [] || a == [CR] {
      ContinuesUndecided(line, a, b);
    } else if a[0] == LF || a[0] == CR {
      var n := if a[0] == CR && a[1] == LF then 2 else 1;
      ScanAppend([], a[n..], b);
      ContinuesPastEnd(line, a, b, n);
    } else {
      assert (a + b)[1..] == a[1..] + b;
      ScanAppend(line + [a[0]], a[1..], b);
    }
  }

  lemma {:induction false} RestUndecided(line: seq<Byte>, bs: seq<Byte>)
    requires Clean(line)
    ensures Undecided(ScanLines(line, bs).rest)
    decreases |bs|
  {
    if bs == [] {
    } else if bs == [CR] {
      assert (line + bs)[..|line|] == line;
    } else if bs[0] == LF || bs[0] == CR {
      RestUndecided([], bs[if bs[0] == CR && bs[1] == LF then 2 else 1..]);
    } else {
      RestUndecided(line + [bs[0]], bs[1..]);
    }
  }

  /** After any feed, the residual buffer holds no LF, and CR only as its last byte. */
  lemma ResidualBuffer(decode: seq<Byte> -> string, st: DecoderState, chunk: seq<Byte>)
    ensures Undecided(FeedResult(decode, st, chunk).0.buffer)
  {
    RestUndecided([], st.buffer + chunk);
  }

  lemma {:induction false} InterpretAppend(p: Pending, a: seq<Field>, b: seq<Field>)
    ensures
      var (q, first) := Interpret(p, a);
      var (r, more) := Interpret(q, b);
      Interpret(p, a + b) == (r, first + more)
    decreases |a|
  {
    if a == [] {
      assert a + b == b;
      var (r, more) := Interpret(p, b);
      assert [] + more == more;
    } else {
      assert (a + b)[1..] == a[1..] + b;
      var (q, e) := Apply(p, a[0]);
      InterpretAppend(q, a[1..], b);
      var (q', first) := Interpret(q, a[1..]);
      var (r, more) := Interpret(q', b);
      assert e + (first + more) == (e + first) + more;
    }
  }

  lemma FieldsAppend(decode: seq<Byte> -> string, a: seq<seq<Byte>>, b: seq<seq<Byte>>)
    ensures Fields(decode, a + b) == Fields(decode, a) + Fields(decode, b)
  {
  }

  /** Two feeds do what one feed of the concatenation does. */
  lemma FeedTwice(decode: seq<Byte> -> string, st: DecoderState, a: seq<Byte>, b: seq<Byte>)
    ensures
      var (mid, first) := FeedResult(decode, st, a);
      var (end, more) := FeedResult(decode, mid, b);
      FeedResult(decode, st, a + b) == (end, first + more)
  {
    assert st.buffer + (a + b) == (st.buffer + a) + b;
    ScanAppend([], st.buffer + a, b);
    var s := SplitLines(st.buffer + a);
    var t := SplitLines(s.rest + b);
    FieldsAppend(decode, s.lines, t.lines);
    InterpretAppend(st.pending, Fields(decode, s.lines), Fields(decode, t.lines));
  }

  /**
   * From any decoder state, feeding chunks one by one yields the events and the
   * final state of feeding their concatenation once. (Feeding no chunk at all
   * leaves a state alone; feeding it the empty chunk does so for any state whose
   * buffer is as a feed leaves it.)
   */
  lemma {:induction false} ChunkingDoesNotMatter(decode: seq<Byte> -> string, st: DecoderState,
                                                 chunks: seq<seq<Byte>>)
    requires chunks != [] || Undecided(st.buffer)
    ensures FeedAll(decode, st, chunks) == FeedResult(decode, st, Concat(chunks))
    decreases |chunks|
  {
    if chunks == [] {
      SplitUndecided(st.buffer);
      assert st.buffer + [] == st.buffer;
    } else {
      var mid := FeedResult(decode, st, chunks[0]).0;
      ResidualBuffer(decode, st, chunks[0]);
      ChunkingDoesNotMatter(decode, mid, chunks[1..]);
      FeedTwice(decode, st, chunks[0], Concat(chunks[1..]));
    }
  }

  // ---- the incremental state refines the batch reading ----------------------

  /** Every value followed by a newline, as the data buffer keeps them. */
  function Ended(values: seq<string>): string {
    if values == [] then "" else values[0] + "\n" + Ended(values[1..])
  }

  /** What the decoder keeps of an open block, `id` being in effect before it. */
  function PendingOf(id: Option<string>, block: seq<Field>): Pending {
    Pending(Ended(DataValues(block)), LastType(None, block), LastId(id, block))
  }

  lemma {:induction false} EndedIsJoin(values: seq<string>)
    requires values != []
    ensures Ended(values) == Join(values, "\n") + "\n"
    decreases |values|
  {
    if |values| > 1 {
      EndedIsJoin(values[1..]);
      assert Ended(values) == values[0] + "\n" + (Join(values[1..], "\n") + "\n");
    } else {
      assert Ended(values[1..]) == "";
    }
  }

  lemma {:induction false} EndedAppend(values: seq<string>, v: string)
    ensures Ended(values + [v]) == Ended(values) + v + "\n"
    decreases |values|
  {
    if values == [] {
      assert [v][1..] == [];
    } else {
      assert (values + [v])[1..] == values[1..] + [v];
      EndedAppend(values[1..], v);
      assert values[0] + "\n" + (Ended(values[1..]) + v + "\n") == values[0] + "\n" + Ended(values[1..]) + v + "\n";
    }
  }

  lemma {:induction false} DataValuesAppend(block: seq<Field>, f: Field)
    ensures DataValues(block + [f]) == DataValues(block) + if f.Data? then [f.value] else []
    decreases |block|
  {
    var last := if f.Data? then [f.value] else [];
    if block == [] {
      assert block + [f] == [f] && [f][1..] == [] && DataValues([]) == [];
      assert last + [] == last && [] + last == last;
    } else {
      var first := if block[0].Data? then [block[0].value] else [];
      assert (block + [f])[1..] == block[1..] + [f];
      DataValuesAppend(block[1..], f);
      assert DataValues(block + [f]) == first + (DataValues(block[1..]) + last);
      Associate(first, DataValues(block[1..]), last);
    }
  }

  lemma PendingExtends(id: Option<string>, block: seq<Field>, f: Field)
    requires f != Blank
    ensures Apply(PendingOf(id, block), f) == (PendingOf(id, block + [f]), [])
  {
    DataValuesAppend(block, f);
    assert (block + [f])[..|block|] == block && (block + [f])[|block|] == f;
    if f.Data? {
      EndedAppend(DataValues(block), f.value);
    } else {
      assert DataValues(block) + [] == DataValues(block);
    }
  }

  lemma {:induction false} FirstBlankAt(block: seq<Field>, fs: seq<Field>)
    requires Blank !in block
    ensures FirstBlank(block + fs) == |block| + FirstBlank(fs)
    decreases |block|
  {
    if block == [] {
      assert block + fs == fs;
    } else {
      assert (block + fs)[1..] == block[1..] + fs;
      FirstBlankAt(block[1..], fs);
    }
  }

  /** A blank line ends the block taken in so far; what follows starts afresh. */
  lemma BlocksSplit(id: Option<string>, block: seq<Field>, more: seq<Field>)
    requires Blank !in block
    ensures
      var data := DataValues(block);
      BlockEvents(id, block + ([Blank] + more)) ==
      (if data == [] then [] else [SseEvent(LastId(id, block), LastType(None, block), Join(data, "\n"))])
      + BlockEvents(LastId(id, block), more)
  {
    var all := block + ([Blank] + more);
    FirstBlankAt(block, [Blank] + more);
    assert all[..|block|] == block && all[|block| + 1..] == more;
  }

  lemma BlockCloses(id: Option<string>, block: seq<Field>)
    ensures
      var data := DataValues(block);
      Apply(PendingOf(id, block), Blank) ==
      (PendingOf(LastId(id, block), []),
       if data == [] then [] else [SseEvent(LastId(id, block), LastType(None, block), Join(data, "\n"))])
  {
    var data := DataValues(block);
    if data != [] {
      EndedIsJoin(data);
      assert (Join(data, "\n") + "\n")[..|Join(data, "\n")|] == Join(data, "\n");
    }
  }

  /** An open block only accumulates, and what it accumulates is what it says. */
  lemma {:induction false} InterpretBlock(id: Option<string>, block: seq<Field>)
    requires Blank !in block
    ensures Interpret(PendingOf(id, []), block) == (PendingOf(id, block), [])
    decreases |block|
  {
    if block != [] {
      var k := |block| - 1;
      InterpretBlock(id, block[..k]);
      InterpretAppend(PendingOf(id, []), block[..k], [block[k]]);
      InterpretOne(PendingOf(id, block[..k]), block[k]);
      PendingExtends(id, block[..k], block[k]);
      assert block[..k] + [block[k]] == block;
    }
  }

  lemma InterpretOne(p: Pending, f: Field)
    ensures Interpret(p, [f]) == Apply(p, f)
  {
    assert [f][1..] == [];
    assert Apply(p, f).1 + [] == Apply(p, f).1;
  }

  /** A blank line closes the block before it and leaves only the id behind. */
  lemma InterpretClosedBlock(id: Option<string>, block: seq<Field>, more: seq<Field>)
    requires Blank !in block
    ensures Interpret(PendingOf(id, []), block + ([Blank] + more)).1
         == Apply(PendingOf(id, block), Blank).1 + Interpret(PendingOf(LastId(id, block), []), more).1
  {
    InterpretBlock(id, block);
    InterpretAppend(PendingOf(id, []), block, [Blank] + more);
    InterpretAppend(PendingOf(id, block), [Blank], more);
    InterpretOne(PendingOf(id, block), Blank);
    BlockCloses(id, block);
  }

  /** Running the decoder's state machine over fields gives the events of the blocks. */
  lemma {:induction false} InterpretRefinesBlocks(id: Option<string>, fs: seq<Field>)
    ensures Interpret(PendingOf(id, []), fs).1 == BlockEvents(id, fs)
    decreases |fs|
  {
    var n := FirstBlank(fs);
    var block := fs[..n];
    if n == |fs| {
      assert block == fs;
      InterpretBlock(id, fs);
    } else {
      var more := fs[n + 1..];
      assert fs == block + ([Blank] + more);
      InterpretClosedBlock(id, block, more);
      BlockCloses(id, block);
      InterpretRefinesBlocks(LastId(id, block), more);
    }
  }

  lemma {:induction false} IdAfter(p: Pending, fs: seq<Field>)
    ensures Interpret(p, fs).0.id == LastId(p.id, fs)
    decreases |fs|
  {
    if fs != [] {
      var q := Apply(p, fs[0]).0;
      IdAfter(q, fs[1..]);
      LastIdFirst(p.id, fs);
    }
  }

  lemma {:induction false} LastIdFirst(id: Option<string>, fs: seq<Field>)
    requires fs != []
    ensures LastId(id, fs) == LastId(if fs[0].Id? then Some(fs[0].value) else id, fs[1..])
    decreases |fs|
  {
    if |fs| == 1 {
      assert fs[..0] == [];
    } else {
      LastIdFirst(id, fs[..|fs| - 1]);
      assert fs[..|fs| - 1][1..] == fs[1..][..|fs[1..]| - 1];
    }
  }

  /**
   * The decoder, fed a stream in any chunks from the start, emits exactly the
   * events of the batch reading of the bytes so far; its buffer is the batch
   * remainder and its id the last one of the stream.
   */
  lemma DecoderRefinesBatch(decode: seq<Byte> -> string, chunks: seq<seq<Byte>>)
    ensures
      var (st, events) := FeedAll(decode, FRESH, chunks);
      var l := SplitLines(Concat(chunks));
      && events == BatchEvents(decode, Concat(chunks))
      && st.buffer == l.rest
      && st.pending.id == LastId(None, Fields(decode, l.lines))
  {
    var bs := Concat(chunks);
    ChunkingDoesNotMatter(decode, FRESH, chunks);
    assert [] + bs == bs;
    var fs := Fields(decode, SplitLines(bs).lines);
    InterpretRefinesBlocks(None, fs);
    IdAfter(FRESH.pending, fs);
  }

  // ---- writing events and decoding them --------------------------------------

  function NamedLines(name: string, value: Option<string>): seq<string> {
    if value.None? then [] else [name + ": " + value.value]
  }

  function DataLines(parts: seq<string>): seq<string> {
    if parts == [] then [] else ["data" + ": " + parts[0]] + DataLines(parts[1..])
  }

  /** The lines an event is written as, closed by a blank one. */
  function EventLines(e: SseEvent): seq<string> {
    NamedLines("id", e.id) + NamedLines("event", e.event) + DataLines(SplitOn(e.data, '\n')) + [""]
  }

  function AllLines(es: seq<SseEvent>): seq<string> {
    if es == [] then [] else EventLines(es[0]) + AllLines(es[1..])
  }

  /** The bytes of `lines`, the i-th one ended by `ends[i]`. */
  function WriteLines(encode: string -> seq<Byte>, lines: seq<string>, ends: seq<seq<Byte>>): seq<Byte>
    requires |lines| == |ends|
  {
    if lines == [] then [] else encode(lines[0]) + ends[0] + WriteLines(encode, lines[1..], ends[1..])
  }

  /** An event that has no id of its own carries the latest one before it. */
  function Sticky(id: Option<string>, es: seq<SseEvent>): seq<SseEvent>
    decreases |es|
  {
    if es == [] then []
    else
      var now := if es[0].id.Some? then es[0].id else id;
      [es[0].(id := now)] + Sticky(now, es[1..])
  }

  predicate Eol(end: seq<Byte>) {
    end == [LF] || end == [CR, LF]
  }

  predicate OneLine(s: string) {
    '\r' !in s && '\n' !in s
  }

  predicate Writable(e: SseEvent) {
    && (e.id.Some? ==> OneLine(e.id.value) && '\0' !in e.id.value)
    && (e.event.Some? ==> OneLine(e.event.value))
    && '\r' !in e.data
  }

  /** `decode` undoes `encode` on these lines, and `encode` makes no terminator out of them. */
  ghost predicate Codec(encode: string -> seq<Byte>, decode: seq<Byte> -> string, lines: seq<string>) {
    forall i :: 0 <= i < |lines| ==> decode(encode(lines[i])) == lines[i] && Clean(encode(lines[i]))
  }

  function Classified(lines: seq<string>): seq<Field> {
    seq(|lines|, i requires 0 <= i < |lines| => Classify(lines[i]))
  }

  /** The value is what follows the colon, but for one space right after it. */
  lemma ClassifyForms(name: string, value: string)
    requires name != "" && ':' !in name
    ensures value == "" || value[0] != ' ' ==> Classify(name + ":" + value) == Named(name, value)
    ensures Classify(name + ": " + value) == Named(name, value)
    ensures Classify(name) == Named(name, "")
    ensures Classify(":" + value) == Ignored
  {
    ClassifyAfterColon(name, value);
    SpaceStripped(value);
    ClassifyAfterColon(name, " " + value);
    assert name + ": " + value == name + ":" + (" " + value);
    ClassifyBare(name);
  }

  lemma SpaceStripped(value: string)
    ensures StripSpace(" " + value) == value
  {
    assert (" " + value)[1..] == value;
  }

  lemma ClassifyBare(name: string)
    requires name != "" && ':' !in name
    ensures Classify(name) == Named(name, "")
  {
    assert name[0] in name;
    FirstIndexNone(name, ':');
  }

  lemma ClassifyAfterColon(name: string, value: string)
    requires name != "" && ':' !in name
    ensures Classify(name + ":" + value) == Named(name, StripSpace(value))
  {
    var line := name + ":" + value;
    assert line[..|name|] == name && line[|name| + 1..] == value;
    assert line[0] == name[0] && name[0] in name;
    FirstIndexAt(line, ':', |name|);
  }

  /** `name: value` means that field with that value, for every value. */
  lemma ClassifyWritten(name: string, value: string)
    requires name != "" && ':' !in name
    ensures Classify(name + ": " + value) == Named(name, value)
  {
    ClassifyForms(name, value);
  }

  /** What the fields are: data, type and id; an id with a NUL, and every other name, means nothing. */
  lemma FieldNames(name: string, value: string)
    ensures Named("data", value) == Data(value) && Named("event", value) == Type(value)
    ensures Named("id", value) == if '\0' in value then Ignored else Id(value)
    ensures name != "data" && name != "event" && name != "id" ==> Named(name, value) == Ignored
  {
    assert "data"[0] == 'd' && "event"[0] == 'e' && "id"[0] == 'i';
  }

  /** A line as written, or without the space after its colon when the value does not begin with one. */
  ghost predicate Spelled(line: string, written: string) {
    || line == written
    || exists name, value :: IsField(name, value) && line == name + ":" + value && written == name + ": " + value
  }

  predicate IsField(name: string, value: string) {
    name != "" && ':' !in name && (value == "" || value[0] != ' ')
  }

  ghost predicate AllSpelled(lines: seq<string>, written: seq<string>) {
    |lines| == |written| && forall i :: 0 <= i < |lines| ==> Spelled(lines[i], written[i])
  }

  lemma SpelledMeans(line: string, written: string)
    requires Spelled(line, written)
    ensures Classify(line) == Classify(written)
    ensures OneLine(written) ==> OneLine(line)
  {
    if line != written {
      var name, value :|
        IsField(name, value) && line == name + ":" + value && written == name + ": " + value;
      ClassifyForms(name, value);
    }
  }

  lemma AllSpelledMean(lines: seq<string>, written: seq<string>)
    requires AllSpelled(lines, written)
    ensures Classified(lines) == Classified(written)
    ensures AllOneLine(written) ==> AllOneLine(lines)
  {
    forall i | 0 <= i < |lines|
      ensures Classify(lines[i]) == Classify(written[i]) && (OneLine(written[i]) ==> OneLine(lines[i]))
    {
      SpelledMeans(lines[i], written[i]);
    }
  }

  function FieldsOf(e: SseEvent): seq<Field> {
    HeadFields(e) + DataFields(SplitOn(e.data, '\n'))
  }

  function DataFields(parts: seq<string>): seq<Field> {
    seq(|parts|, i requires 0 <= i < |parts| => Data(parts[i]))
  }

  lemma {:induction false} ClassifyDataLines(parts: seq<string>)
    ensures Classified(DataLines(parts)) == DataFields(parts)
    decreases |parts|
  {
    if parts != [] {
      var first := ["data" + ": " + parts[0]];
      ClassifyWritten("data", parts[0]);
      ClassifyDataLines(parts[1..]);
      ClassifiedAppend(first, DataLines(parts[1..]));
      assert Classified(first) == [Data(parts[0])];
    }
  }

  lemma ClassifiedAppend(a: seq<string>, b: seq<string>)
    ensures Classified(a + b) == Classified(a) + Classified(b)
  {
  }

  lemma ClassifyNamedLines(name: string, value: Option<string>)
    requires name != "" && ':' !in name
    ensures Classified(NamedLines(name, value)) == if value.None? then [] else [Named(name, value.value)]
  {
    if value.Some? {
      ClassifyWritten(name, value.value);
    }
  }

  lemma ClassifyEventLines(e: SseEvent)
    requires Writable(e)
    ensures Classified(EventLines(e)) == FieldsOf(e) + [Blank]
  {
    var i, t, d := NamedLines("id", e.id), NamedLines("event", e.event), DataLines(SplitOn(e.data, '\n'));
    ClassifiedAppend(i, t);
    ClassifiedAppend(i + t, d);
    ClassifiedAppend(i + t + d, [""]);
    ClassifyNamedLines("id", e.id);
    ClassifyNamedLines("event", e.event);
    ClassifyDataLines(SplitOn(e.data, '\n'));
    assert Classified([""]) == [Blank];
  }

  lemma {:induction false} DataValuesConcat(a: seq<Field>, b: seq<Field>)
    ensures DataValues(a + b) == DataValues(a) + DataValues(b)
    decreases |a|
  {
    if a == [] {
      assert a + b == b;
    } else {
      assert (a + b)[1..] == a[1..] + b;
      DataValuesConcat(a[1..], b);
    }
  }

  lemma {:induction false} DataFieldsValues(parts: seq<string>)
    ensures DataValues(DataFields(parts)) == parts
    decreases |parts|
  {
    if parts != [] {
      DataFieldsValues(parts[1..]);
      assert DataFields(parts)[1..] == DataFields(parts[1..]);
      assert [parts[0]] + parts[1..] == parts;
    }
  }

  /** Data fields change neither the id nor the type. */
  lemma {:induction false} DataKeepsIdAndType(before: Option<string>, head: seq<Field>, tail: seq<Field>)
    requires forall i :: 0 <= i < |tail| ==> tail[i].Data?
    ensures LastId(before, head + tail) == LastId(before, head)
    ensures LastType(before, head + tail) == LastType(before, head)
    decreases |tail|
  {
    if tail == [] {
      assert head + tail == head;
    } else {
      DataKeepsIdAndType(before, head, tail[..|tail| - 1]);
      assert (head + tail)[..|head + tail| - 1] == head + tail[..|tail| - 1];
    }
  }

  function HeadFields(e: SseEvent): seq<Field> {
    (if e.id.Some? then [Id(e.id.value)] else []) + (if e.event.Some? then [Type(e.event.value)] else [])
  }

  lemma Head(id: Option<string>, e: SseEvent)
    ensures
      var fs := HeadFields(e);
      && Blank !in fs && DataValues(fs) == []
      && LastType(None, fs) == e.event
      && LastId(id, fs) == if e.id.Some? then e.id else id
  {
    var fs := HeadFields(e);
    DataValuesConcat(fs[..|fs| / 2], fs[|fs| / 2..]);
    assert |fs| == 2 ==> fs == fs[..1] + fs[1..] && fs[..1] == [Id(e.id.value)] && fs[1..] == [Type(e.event.value)];
    assert |fs| == 1 ==> fs[..0] == [] && fs[1..] == [];
    assert |fs| == 2 ==> DataValues([Id(e.id.value)]) == [] && DataValues([Type(e.event.value)]) == [];
  }

  lemma DataOfWritten(head: seq<Field>, parts: seq<string>)
    requires Blank !in head && DataValues(head) == []
    ensures Blank !in head + DataFields(parts) && DataValues(head + DataFields(parts)) == parts
  {
    DataValuesConcat(head, DataFields(parts));
    DataFieldsValues(parts);
    assert [] + parts == parts;
    assert forall f :: f in DataFields(parts) ==> f != Blank;
  }

  /** One written event is one block, and the block is that event. */
  lemma WrittenBlock(id: Option<string>, e: SseEvent)
    ensures
      var fs := FieldsOf(e);
      && Blank !in fs
      && DataValues(fs) != [] && Join(DataValues(fs), "\n") == e.data
      && LastType(None, fs) == e.event
      && LastId(id, fs) == if e.id.Some? then e.id else id
  {
    var head, parts := HeadFields(e), SplitOn(e.data, '\n');
    Head(id, e);
    DataOfWritten(head, parts);
    DataKeepsIdAndType(id, head, DataFields(parts));
    DataKeepsIdAndType(None, head, DataFields(parts));
    JoinSplit(e.data, '\n');
  }

  /** The fields of one written event followed by others: that event, then theirs. */
  lemma WrittenEventFirst(id: Option<string>, e: SseEvent, more: seq<Field>)
    ensures
      var now := if e.id.Some? then e.id else id;
      BlockEvents(id, FieldsOf(e) + ([Blank] + more)) == [e.(id := now)] + BlockEvents(now, more)
  {
    WrittenBlock(id, e);
    BlocksSplit(id, FieldsOf(e), more);
  }

  lemma ClassifiedFirst(es: seq<SseEvent>)
    requires es != [] && Writable(es[0])
    ensures Classified(AllLines(es)) == FieldsOf(es[0]) + ([Blank] + Classified(AllLines(es[1..])))
  {
    ClassifyEventLines(es[0]);
    ClassifiedAppend(EventLines(es[0]), AllLines(es[1..]));
    Associate(FieldsOf(es[0]), [Blank], Classified(AllLines(es[1..])));
  }

  lemma {:induction false} WrittenBlocks(id: Option<string>, es: seq<SseEvent>)
    requires forall e :: e in es ==> Writable(e)
    ensures BlockEvents(id, Classified(AllLines(es))) == Sticky(id, es)
    decreases |es|
  {
    if es != [] {
      ClassifiedFirst(es);
      WrittenEventFirst(id, es[0], Classified(AllLines(es[1..])));
      WrittenBlocks(if es[0].id.Some? then es[0].id else id, es[1..]);
    }
  }

  lemma {:induction false} WrittenLinesSplit(encode: string -> seq<Byte>, decode: seq<Byte> -> string,
                                             lines: seq<string>, ends: seq<seq<Byte>>)
    requires Codec(encode, decode, lines) && |lines| == |ends|
    requires forall e :: e in ends ==> Eol(e)
    ensures Fields(decode, SplitLines(WriteLines(encode, lines, ends)).lines) == Classified(lines)
    ensures SplitLines(WriteLines(encode, lines, ends)).rest == []
    decreases |lines|
  {
    if lines == [] {
    } else {
      var text, tail := encode(lines[0]), WriteLines(encode, lines[1..], ends[1..]);
      assert Eol(ends[0]);
      SplitFirst(text, ends[0], tail);
      WrittenLinesSplit(encode, decode, lines[1..], ends[1..]);
      FieldsPrepend(decode, text, SplitLines(tail).lines);
      assert Classified(lines) == [Classify(lines[0])] + Classified(lines[1..]);
    }
  }

  ghost predicate AllOneLine(lines: seq<string>) {
    forall i :: 0 <= i < |lines| ==> OneLine(lines[i])
  }

  lemma {:induction false} DataLinesOneLine(parts: seq<string>)
    requires AllOneLine(parts)
    ensures AllOneLine(DataLines(parts))
    decreases |parts|
  {
    if parts != [] {
      DataLinesOneLine(parts[1..]);
    }
  }

  /** The parts hold neither the separator nor anything the whole does not hold. */
  lemma {:induction false} SplitKeepsOut(s: string, c: char, out: char)
    requires out == c || out !in s
    ensures forall i :: 0 <= i < |SplitOn(s, c)| ==> out !in SplitOn(s, c)[i]
    decreases |s|
  {
    var i := FirstIndex(s, c);
    if i < |s| {
      SplitKeepsOut(s[i + 1..], c, out);
    }
  }

  lemma EventLinesOneLine(e: SseEvent)
    requires Writable(e)
    ensures AllOneLine(EventLines(e))
  {
    SplitKeepsOut(e.data, '\n', '\r');
    SplitKeepsOut(e.data, '\n', '\n');
    DataLinesOneLine(SplitOn(e.data, '\n'));
    assert AllOneLine(NamedLines("id", e.id)) && AllOneLine(NamedLines("event", e.event));
  }

  lemma {:induction false} AllLinesOneLine(es: seq<SseEvent>)
    requires forall e :: e in es ==> Writable(e)
    ensures AllOneLine(AllLines(es))
    decreases |es|
  {
    if es != [] {
      EventLinesOneLine(es[0]);
      AllLinesOneLine(es[1..]);
    }
  }

  /**
   * Round trip: events written line by line, with or without the space after a
   * colon, each line ended by LF or by CRLF as one pleases, and cut into chunks
   * anywhere, decode to those same events under the sticky-id rule.
   */
  lemma WriteThenDecode(encode: string -> seq<Byte>, decode: seq<Byte> -> string, es: seq<SseEvent>,
                        lines: seq<string>, ends: seq<seq<Byte>>, chunks: seq<seq<Byte>>)
    requires forall e :: e in es ==> Writable(e)
    requires AllSpelled(lines, AllLines(es)) && Codec(encode, decode, lines)
    requires |ends| == |lines| && forall e :: e in ends ==> Eol(e)
    ensures Concat(chunks) == WriteLines(encode, lines, ends)
            ==> FeedAll(decode, FRESH, chunks).1 == Sticky(None, es)
  {
    WrittenLinesSplit(encode, decode, lines, ends);
    AllSpelledMean(lines, AllLines(es));
    WrittenBlocks(None, es);
    DecoderRefinesBatch(decode, chunks);
  }
}
