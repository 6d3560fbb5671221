/**
 * What a server-sent event stream means, in two passes and without any state
 * carried between reads: cut the bytes into lines, then interpret the lines
 * block by block (sections 9.2.5 and 9.2.6 of the WHATWG HTML Standard, for
 * the fields data, event and id).
 */
module SseSpec {
  import opened Wrappers
  import opened Text
  import opened Bytes

  const LF: Byte := 10
  const CR: Byte := 13

  datatype SseEvent = SseEvent(id: Option<string>, event: Option<string>, data: string)

  // ---- pass 1: lines ------------------------------------------------------

  /** The complete lines of some bytes, and the bytes no line can be made of yet. */
  datatype Lines = Lines(lines: seq<seq<Byte>>, rest: seq<Byte>)

  function SplitLines(bs: seq<Byte>): Lines {
    ScanLines([], bs)
  }

  /** Scans `bs` with `line` already read of the current line. */
  function ScanLines(line: seq<Byte>, bs: seq<Byte>): Lines
    decreases |bs|
  {
    if bs == [] then Lines([], line)
    else if bs[0] == LF then Prepend(line, ScanLines([], bs[1..]))
    else if bs[0] == CR then
      if |bs| == 1 then Lines([], line + [CR])
      else Prepend(line, ScanLines([], if bs[1] == LF then bs[2..] else bs[1..]))
    else ScanLines(line + [bs[0]], bs[1..])
  }

  function Prepend(line: seq<Byte>, l: Lines): Lines {
    l.(lines := [line] + l.lines)
  }

  ghost predicate Clean(bs: seq<Byte>) {
    LF !in bs && CR !in bs
  }

  /** Bytes that hold no decided line terminator: at most one CR, as the last byte. */
  ghost predicate Undecided(bs: seq<Byte>) {
    Clean(bs) || (bs != [] && bs[|bs| - 1] == CR && Clean(bs[..|bs| - 1]))
  }

  /** A line together with the terminator that ended it. */
  datatype Terminated = Terminated(text: seq<Byte>, end: seq<Byte>)

  /**
   * `end` ends a line when `tail` follows it: a CR counts alone only when another
   * byte is seen after it and that byte is not LF.
   */
  ghost predicate Ends(end: seq<Byte>, tail: seq<Byte>) {
    end in {[LF], [CR, LF], [CR]} && (end == [CR] ==> tail != [] && tail[0] != LF)
  }

  /**
   * `ls` and `rest` are a reading of `bs`: nothing is added or lost, lines hold
   * no terminator and each is ended by one.
   */
  ghost predicate Reads(bs: seq<Byte>, ls: seq<Terminated>, rest: seq<Byte>)
    decreases ls
  {
    if ls == [] then bs == rest && Undecided(rest)
    else
      && Clean(ls[0].text)
      && ls[0].text + ls[0].end <= bs
      && var tail := bs[|ls[0].text| + |ls[0].end|..];
      && Ends(ls[0].end, tail)
      && Reads(tail, ls[1..], rest)
  }

  function Texts(ls: seq<Terminated>): seq<seq<Byte>> {
    if ls == [] then [] else [ls[0].text] + Texts(ls[1..])
  }

  // ---- pass 2: fields and blocks -------------------------------------------

  datatype Field = Blank | Ignored | Data(value: string) | Type(value: string) | Id(value: string)

  function Named(name: string, value: string): Field {
    if name == "data" then Data(value)
    else if name == "event" then Type(value)
    else if name == "id" && '\0' !in value then Id(value)
    else Ignored
  }

  function StripSpace(s: string): string {
    if s != [] && s[0] == ' ' then s[1..] else s
  }

  function Classify(line: string): Field {
    if line == [] then Blank
    else if line[0] == ':' then Ignored
    else
      var i := FirstIndex(line, ':');
      if i == |line| then Named(line, "") else Named(line[..i], StripSpace(line[i + 1..]))
  }

  function Fields(decode: seq<Byte> -> string, lines: seq<seq<Byte>>): seq<Field> {
    seq(|lines|, i requires 0 <= i < |lines| => Classify(decode(lines[i])))
  }

  function DataValues(block: seq<Field>): seq<string> {
    if block == [] then []
    else (if block[0].Data? then [block[0].value] else []) + DataValues(block[1..])
  }

  /** The last `event:` value of a block, or `before` when it has none. */
  function LastType(before: Option<string>, block: seq<Field>): Option<string>
    decreases |block|
  {
    if block == [] then before
    else if block[|block| - 1].Type? then Some(block[|block| - 1].value)
    else LastType(before, block[..|block| - 1])
  }

  function LastId(before: Option<string>, block: seq<Field>): Option<string>
    decreases |block|
  {
    if block == [] then before
    else if block[|block| - 1].Id? then Some(block[|block| - 1].value)
    else LastId(before, block[..|block| - 1])
  }

  /** The position of the first blank line, or the number of fields. */
  function FirstBlank(fs: seq<Field>): (i: nat)
    ensures i <= |fs| && Blank !in fs[..i] && (i < |fs| ==> fs[i] == Blank)
  {
    if fs == [] || fs[0] == Blank then 0 else 1 + FirstBlank(fs[1..])
  }

  /**
   * The events of a sequence of fields, `id` being the id in effect before it:
   * one event for every block that a blank line closes and that has at least
   * one data field. Its data fields are joined by newlines, its type is its own
   * last one, its id the last id of the stream so far.
   */
  function BlockEvents(id: Option<string>, fs: seq<Field>): seq<SseEvent>
    decreases |fs|
  {
    var n := FirstBlank(fs);
    if n == |fs| then []
    else
      var block := fs[..n];
      var data := DataValues(block);
      (if data == [] then [] else [SseEvent(LastId(id, block), LastType(None, block), Join(data, "\n"))])
      + BlockEvents(LastId(id, block), fs[n + 1..])
  }

  /** All the events of a whole stream. */
  function BatchEvents(decode: seq<Byte> -> string, bs: seq<Byte>): seq<SseEvent> {
    BlockEvents(None, Fields(decode, SplitLines(bs).lines))
  }

  // ---- pass 1 is the only reading --------------------------------------------

  lemma {:induction false} ScanContinues(line: seq<Byte>, clean: seq<Byte>, bs: seq<Byte>)
    requires Clean(clean)
    ensures ScanLines(line, clean + bs) == ScanLines(line + clean, bs)
    decreases |clean|
  {
    if clean == [] {
      assert clean + bs == bs && line + clean == line;
    } else {
      assert (clean + bs)[1..] == clean[1..] + bs;
      assert line + [clean[0]] + clean[1..] == line + clean;
      ScanContinues(line + [clean[0]], clean[1..], bs);
    }
  }

  lemma {:induction false} SplitFirst(text: seq<Byte>, end: seq<Byte>, tail: seq<Byte>)
    requires Clean(text) && Ends(end, tail)
    ensures SplitLines(text + end + tail) == Prepend(text, SplitLines(tail))
  {
    assert text + end + tail == text + (end + tail) && [] + text == text;
    ScanContinues([], text, end + tail);
    assert (end + tail)[|end|..] == tail;
  }

  lemma {:induction false} SplitUndecided(rest: seq<Byte>)
    requires Undecided(rest)
    ensures SplitLines(rest) == Lines([], rest)
  {
    if Clean(rest) {
      ScanContinues([], rest, []);
      assert rest + [] == rest && [] + rest == rest;
    } else {
      var k := |rest| - 1;
      ScanContinues([], rest[..k], [CR]);
      assert rest[..k] + [CR] == rest && [] + rest[..k] == rest[..k];
    }
  }

  /** Whatever way a stream is read, pass 1 gives those lines and that remainder. */
  lemma {:induction false} ReadingIsUnique(bs: seq<Byte>, ls: seq<Terminated>, rest: seq<Byte>)
    requires Reads(bs, ls, rest)
    ensures SplitLines(bs) == Lines(Texts(ls), rest)
    decreases ls
  {
    if ls == [] {
      SplitUndecided(rest);
    } else {
      var tail := bs[|ls[0].text| + |ls[0].end|..];
      assert bs == ls[0].text + ls[0].end + tail;
      SplitFirst(ls[0].text, ls[0].end, tail);
      ReadingIsUnique(tail, ls[1..], rest);
    }
  }

  /** Every stream has a reading, and it is the one pass 1 computes. */
  lemma {:induction false} SplitIsReading(bs: seq<Byte>) returns (ls: seq<Terminated>)
    ensures Reads(bs, ls, SplitLines(bs).rest) && Texts(ls) == SplitLines(bs).lines
  {
    assert [] + bs == bs;
    ls := ScanIsReading([], bs);
  }

  lemma ReadsFirst(text: seq<Byte>, end: seq<Byte>, tail: seq<Byte>, ls: seq<Terminated>, rest: seq<Byte>)
    requires Clean(text) && Ends(end, tail) && Reads(tail, ls, rest)
    ensures Reads(text + end + tail, [Terminated(text, end)] + ls, rest)
    ensures Texts([Terminated(text, end)] + ls) == [text] + Texts(ls)
  {
    var all := [Terminated(text, end)] + ls;
    assert all[1..] == ls;
    assert (text + end + tail)[|text| + |end|..] == tail;
    assert text + end <= text + end + tail;
  }

  lemma {:induction false} ScanIsReading(line: seq<Byte>, bs: seq<Byte>) returns (ls: seq<Terminated>)
    requires Clean(line)
    ensures Reads(line + bs, ls, ScanLines(line, bs).rest) && Texts(ls) == ScanLines(line, bs).lines
    decreases |bs|
  {
    if bs == [] {
      assert line + bs == line;
      ls := [];
    } else if bs == [CR] {
      assert (line + bs)[..|line|] == line;
      ls := [];
    } else if bs[0] == LF || bs[0] == CR {
      var end := if bs[0] == LF then [LF] else if bs[1] == LF then [CR, LF] else [CR];
      var tail := bs[|end|..];
      assert line + bs == line + end + tail;
      ls := ScanIsReading([], tail);
      assert [] + tail == tail;
      ReadsFirst(line, end, tail, ls, ScanLines([], tail).rest);
      ls := [Terminated(line, end)] + ls;
    } else {
      ls := ScanIsReading(line + [bs[0]], bs[1..]);
      assert line + [bs[0]] + bs[1..] == line + bs;
    }
  }
}
