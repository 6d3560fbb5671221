/**
 * The incremental decoder: bytes in, in whatever chunks the transport hands
 * over, complete events out.
 */
module SseDecoder {
  import opened Wrappers
  import opened Text
  import opened Bytes
  import opened SseSpec

  /** What is accumulated for the event being built, and the sticky id. */
  datatype Pending = Pending(data: string, event: Option<string>, id: Option<string>)

  datatype DecoderState = DecoderState(buffer: seq<Byte>, pending: Pending)

  const FRESH := DecoderState([], Pending("", None, None))

  function ChopNewline(s: string): string {
    if s != "" && s[|s| - 1] == '\n' then s[..|s| - 1] else s
  }

  /** One field applied to the accumulated state: at most one event comes out. */
  function Apply(p: Pending, f: Field): (Pending, seq<SseEvent>) {
    match f
    case Blank =>
      (Pending("", None, p.id),
       if p.data == "" then [] else [SseEvent(p.id, p.event, ChopNewline(p.data))])
    case Data(v) => (p.(data := p.data + v + "\n"), [])
    case Type(v) => (p.(event := Some(v)), [])
    case Id(v) => (p.(id := Some(v)), [])
    case Ignored => (p, [])
  }

  function Interpret(p: Pending, fs: seq<Field>): (Pending, seq<SseEvent>)
    decreases |fs|
  {
    if fs == [] then (p, [])
    else
      var (q, first) := Apply(p, fs[0]);
      var (r, more) := Interpret(q, fs[1..]);
      (r, first + more)
  }

  /** What feeding `chunk` to a decoder in state `st` does, in two passes. */
  function FeedResult(decode: seq<Byte> -> string, st: DecoderState, chunk: seq<Byte>)
    : (DecoderState, seq<SseEvent>)
  {
    var l := SplitLines(st.buffer + chunk);
    var (p, events) := Interpret(st.pending, Fields(decode, l.lines));
    (DecoderState(l.rest, p), events)
  }

  datatype LineEnd = Found(lineLen: nat, consumed: nat) | Incomplete | NeedsMoreData

  method FindLineEnd(buffer: seq<Byte>) returns (end: LineEnd)
    ensures end.Found? ==>
              && end.lineLen <= end.consumed <= |buffer|
              && Clean(buffer[..end.lineLen])
              && Ends(buffer[end.lineLen..end.consumed], buffer[end.consumed..])
    ensures end.Incomplete? <==> Clean(buffer)
    ensures end.NeedsMoreData? <==> Undecided(buffer) && !Clean(buffer)
  {
    var i := 0;
    while i < |buffer|
      invariant 0 <= i <= |buffer|
      invariant Clean(buffer[..i])
    {
      if buffer[i] == LF {
        assert buffer[i..i + 1] == [LF];
        assert buffer[i] in buffer && (i < |buffer| - 1 ==> buffer[i] in buffer[..|buffer| - 1]);
        return Found(i, i + 1);
      }
      if buffer[i] == CR {
        assert buffer[i] in buffer;
        if i + 1 == |buffer| {
          return NeedsMoreData;
        }
        assert buffer[i] in buffer[..|buffer| - 1];
        if buffer[i + 1] == LF {
          assert buffer[i..i + 2] == [CR, LF];
          return Found(i, i + 2);
        }
        assert buffer[i..i + 1] == [CR];
        return Found(i, i + 1);
      }
      i := i + 1;
    }
    assert buffer[..i] == buffer;
    return Incomplete;
  }

  class SseDecoder {
    const decode: seq<Byte> -> string
    var buffer: seq<Byte>
    var dataBuffer: string
    var eventType: Option<string>
    var lastId: Option<string>

    ghost function State(): DecoderState
      reads this
    {
      DecoderState(buffer, Pending(dataBuffer, eventType, lastId))
    }

    constructor (decode: seq<Byte> -> string)
      ensures this.decode == decode && State() == FRESH
    {
      this.decode := decode;
      buffer, dataBuffer, eventType, lastId := [], "", None, None;
    }

    method LastEventId() returns (id: Option<string>)
      ensures id == State().pending.id
    {
      id := lastId;
    }

    method Feed(chunk: seq<Byte>) returns (events: seq<SseEvent>)
      modifies this
      ensures (State(), events) == FeedResult(decode, old(State()), chunk)
    {
      ghost var result := FeedResult(decode, State(), chunk);
      buffer := buffer + chunk;
      events := [];
      FeedStarts(decode, old(State()), chunk);
      while true
        invariant Remains(decode, result, State(), events)
        decreases |buffer|
      {
        var end := FindLineEnd(buffer);
        if !end.Found? {
          FeedEnds(decode, result, State(), events);
          return;
        }
        var line := decode(buffer[..end.lineLen]);
        FeedOneLine(decode, result, State(), events, end.lineLen, end.consumed);
        buffer := buffer[end.consumed..];
        var event := ProcessLine(line);
        events := events + event;
      }
    }

    method ProcessLine(line: string) returns (event: seq<SseEvent>)
      modifies this
      ensures buffer == old(buffer)
      ensures (State().pending, event) == Apply(old(State()).pending, Classify(line))
    {
      if line == "" {
        event := Dispatch();
        return;
      }
      event := [];
      if line[0] == ':' {
        return;
      }
      var i := FirstIndex(line, ':');
      var field, value := line, "";
      if i < |line| {
        field, value := line[..i], StripSpace(line[i + 1..]);
      }
      if field == "data" {
        dataBuffer := dataBuffer + value;
        dataBuffer := dataBuffer + "\n";
      } else if field == "event" {
        eventType := Some(value);
      } else if field == "id" && '\0' !in value {
        lastId := Some(value);
      }
    }

    method Dispatch() returns (event: seq<SseEvent>)
      modifies this
      ensures buffer == old(buffer)
      ensures (State().pending, event) == Apply(old(State()).pending, Blank)
    {
      var kind := eventType;
      eventType := None;
      if dataBuffer == "" {
        return [];
      }
      var data := dataBuffer;
      dataBuffer := "";
      if data[|data| - 1] == '\n' {
        data := data[..|data| - 1];
      }
      return [SseEvent(lastId, kind, data)];
    }
  }

  /** `events` are out, and feeding nothing more from `st` completes `result`. */
  ghost predicate Remains(decode: seq<Byte> -> string, result: (DecoderState, seq<SseEvent>),
                          st: DecoderState, events: seq<SseEvent>)
  {
    var (r, more) := FeedResult(decode, st, []);
    result == (r, events + more)
  }

  lemma FeedStarts(decode: seq<Byte> -> string, st: DecoderState, chunk: seq<Byte>)
    ensures Remains(decode, FeedResult(decode, st, chunk), st.(buffer := st.buffer + chunk), [])
  {
    assert st.buffer + chunk + [] == st.buffer + chunk;
    var (r, more) := FeedResult(decode, st, chunk);
    assert [] + more == more;
  }

  lemma FeedEnds(decode: seq<Byte> -> string, result: (DecoderState, seq<SseEvent>),
                 st: DecoderState, events: seq<SseEvent>)
    requires Remains(decode, result, st, events) && Undecided(st.buffer)
    ensures result == (st, events)
  {
    SplitUndecided(st.buffer);
    assert st.buffer + [] == st.buffer && events + [] == events;
  }

  /** Draining one complete line and processing it is one step of the two-pass form. */
  lemma FeedOneLine(decode: seq<Byte> -> string, result: (DecoderState, seq<SseEvent>),
                    st: DecoderState, events: seq<SseEvent>, lineLen: nat, consumed: nat)
    requires Remains(decode, result, st, events)
    requires lineLen <= consumed <= |st.buffer|
    requires Clean(st.buffer[..lineLen])
    requires Ends(st.buffer[lineLen..consumed], st.buffer[consumed..])
    ensures
      var (p, event) := Apply(st.pending, Classify(decode(st.buffer[..lineLen])));
      Remains(decode, result, DecoderState(st.buffer[consumed..], p), events + event)
  {
    var text, end, tail := st.buffer[..lineLen], st.buffer[lineLen..consumed], st.buffer[consumed..];
    assert st.buffer + [] == text + end + tail && tail + [] == tail;
    SplitFirst(text, end, tail);
    FieldsPrepend(decode, text, SplitLines(tail).lines);
    InterpretFirst(st.pending, Classify(decode(text)), Fields(decode, SplitLines(tail).lines), events);
  }

  lemma InterpretFirst(p: Pending, f: Field, fs: seq<Field>, events: seq<SseEvent>)
    ensures
      var q, event := Apply(p, f).0, Apply(p, f).1;
      && Interpret(p, [f] + fs).0 == Interpret(q, fs).0
      && events + Interpret(p, [f] + fs).1 == events + event + Interpret(q, fs).1
  {
    assert ([f] + fs)[1..] == fs;
  }

  lemma FieldsPrepend(decode: seq<Byte> -> string, line: seq<Byte>, lines: seq<seq<Byte>>)
    ensures Fields(decode, [line] + lines) == [Classify(decode(line))] + Fields(decode, lines)
  {
  }
}
