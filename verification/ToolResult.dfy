/** A `tools/call` result is an envelope; this unwraps it to the tool's own value. */
module ToolResult {
  import opened Wrappers
  import opened Text
  import opened Json

  datatype McpError =
    | Io
    | Protocol
    | Rpc(code: int, message: string)
    | Tool(message: string)
    | Timeout

  /** The `text` of every content block that has one. */
  function TextsOf(blocks: seq<Json>): seq<string> {
    if blocks == [] then []
    else
      var t := AsStr(Get(blocks[0], "text"));
      (if t.Some? then [t.value] else []) + TextsOf(blocks[1..])
  }

  function TextBlocks(result: Json): string {
    match Get(result, "content")
    case Some(Arr(blocks)) => Join(TextsOf(blocks), "\n")
    case _ => ""
  }

  /** An object with the single key `result` whose value is not an object. */
  predicate IsWrapper(v: Json) {
    v.Obj? && |v.fields| == 1 && "result" in v.fields && !v.fields["result"].Obj?
  }

  function UnwrapStructured(v: Json): Json {
    if IsWrapper(v) then v.fields["result"] else v
  }

  function ParseToolResult(parse: string -> Option<Json>, result: Json): Result<Json, McpError> {
    var structured := Get(result, "structuredContent");
    var text := TextBlocks(result);
    if Get(result, "isError") == Some(Bool(true)) then
      Err(Tool(if text == "" then "tool reported isError with no message" else text))
    else if structured.Some? && !structured.value.Null? then Ok(UnwrapStructured(structured.value))
    else if text != "" then
      match parse(text)
      case Some(v) => Ok(UnwrapStructured(v))
      case None => Ok(Str(text))
    else Err(Protocol)
  }

  /**
   * A result is a tool error exactly when it raises isError, whatever else it
   * carries; the message is its text, or says that there is none.
   */
  lemma ErrorAlwaysWins(parse: string -> Option<Json>, result: Json)
    ensures
      var r := ParseToolResult(parse, result);
      && (r.Err? && r.error.Tool? <==> Get(result, "isError") == Some(Bool(true)))
      && (r.Err? && r.error.Tool? ==>
            r.error.message ==
            if TextBlocks(result) != "" then TextBlocks(result) else "tool reported isError with no message")
  {
  }

  // ---- results that carry only text ----------------------------------------------

  lemma {:induction false} TextsAppend(a: seq<Json>, b: seq<Json>)
    ensures TextsOf(a + b) == TextsOf(a) + TextsOf(b)
    decreases |a|
  {
    if a == [] {
      assert a + b == b;
    } else {
      assert (a + b)[1..] == a[1..] + b;
      TextsAppend(a[1..], b);
    }
  }

  /** One block gives its text, if it is an object with a string under `text`. */
  lemma TextOfBlock(block: Json, s: string)
    ensures block.Obj? && "text" in block.fields && block.fields["text"] == Str(s) ==> TextsOf([block]) == [s]
    ensures !(block.Obj? && "text" in block.fields && block.fields["text"].Str?) ==> TextsOf([block]) == []
  {
    assert [block][1..] == [];
  }

  /** Blocks with these texts. */
  ghost predicate HaveTexts(blocks: seq<Json>, texts: seq<string>) {
    |blocks| == |texts| && forall i :: 0 <= i < |blocks| ==> Get(blocks[i], "text") == Some(Str(texts[i]))
  }

  lemma {:induction false} TextsOfBlocks(blocks: seq<Json>, texts: seq<string>)
    requires HaveTexts(blocks, texts)
    ensures TextsOf(blocks) == texts
    decreases |blocks|
  {
    if blocks != [] {
      TextsOfBlocks(blocks[1..], texts[1..]);
      assert Get(blocks[0], "text") == Some(Str(texts[0]));
      assert [texts[0]] + texts[1..] == texts;
    }
  }

  /**
   * Without structured content and isError, a result is its texts joined by
   * newlines: unwrapped when they are JSON together, the text itself when they
   * are not, and a protocol error when there is none.
   */
  lemma TextResult(parse: string -> Option<Json>, result: Json, blocks: seq<Json>, texts: seq<string>)
    requires Get(result, "isError") != Some(Bool(true)) && Get(result, "structuredContent") in {None, Some(Null)}
    requires Get(result, "content") == Some(Arr(blocks)) && HaveTexts(blocks, texts)
    ensures
      var text, r := Join(texts, "\n"), ParseToolResult(parse, result);
      && (text != "" && parse(text).None? ==> r == Ok(Str(text)))
      && (text != "" && parse(text).Some? && !LooksWrapped(parse(text).value) ==> r == Ok(parse(text).value))
      && (text == "" ==> r == Err(Protocol))
  {
    TextsOfBlocks(blocks, texts);
    if parse(Join(texts, "\n")).Some? {
      WrapperLooks(parse(Join(texts, "\n")).value);
    }
  }

  /** No content at all, and nothing structured. */
  lemma EmptyResult(parse: string -> Option<Json>, result: Json)
    requires Get(result, "isError") != Some(Bool(true)) && Get(result, "structuredContent") in {None, Some(Null)}
    requires !(result.Obj? && "content" in result.fields && result.fields["content"].Arr?)
    ensures ParseToolResult(parse, result) == Err(Protocol)
  {
  }

  // ---- wrapping and unwrapping ---------------------------------------------------

  /** `{"result": x}` with nothing else, and `x` not an object. */
  ghost predicate LooksWrapped(v: Json) {
    v.Obj? && v.fields.Keys == {"result"} && !v.fields["result"].Obj?
  }

  lemma WrapperLooks(v: Json)
    ensures IsWrapper(v) <==> LooksWrapped(v)
  {
    if v.Obj? {
      assert |v.fields| == |v.fields.Keys|;
      if |v.fields| == 1 && "result" in v.fields {
        assert |v.fields.Keys - {"result"}| == 0;
      }
    }
  }

  /** The server's side: a value that is not an object is put under `result`. */
  function Wrap(v: Json): Json {
    if v.Obj? then v else Obj(map["result" := v])
  }

  lemma WrapperIsMap(v: Json)
    requires !v.Obj?
    ensures IsWrapper(Wrap(v)) && UnwrapStructured(Wrap(v)) == v
  {
    assert |map["result" := v]| == 1;
  }

  /** Unwrapping undoes wrapping exactly when the value does not look wrapped itself. */
  lemma UnwrapWrap(v: Json)
    ensures UnwrapStructured(Wrap(v)) == v <==> !LooksWrapped(v)
  {
    WrapperLooks(v);
    if !v.Obj? {
      WrapperIsMap(v);
    }
  }

  /** The envelope carries the wrapped value in `structuredContent`. */
  ghost predicate Structured(envelope: Json, v: Json) {
    Get(envelope, "structuredContent") == Some(Wrap(v))
  }

  /** The envelope carries it as the one text block, with no structured content. */
  ghost predicate AsText(render: Json -> string, envelope: Json, v: Json) {
    && Get(envelope, "structuredContent") in {None, Some(Null)}
    && exists block :: AsStr(Get(block, "text")) == Some(render(Wrap(v)))
                       && Get(envelope, "content") == Some(Arr([block]))
  }

  lemma StructuredRoundTrip(parse: string -> Option<Json>, envelope: Json, v: Json)
    requires Structured(envelope, v) && Get(envelope, "isError") != Some(Bool(true))
    ensures ParseToolResult(parse, envelope) == Ok(v) <==> !LooksWrapped(v)
  {
    UnwrapWrap(v);
  }

  /**
   * The tool's value comes back through either carrier, if and only if it is not
   * itself a one-key `result` object holding a non-object; and a raised isError
   * always wins.
   */
  lemma EnvelopeRoundTrip(render: Json -> string, parse: string -> Option<Json>, envelope: Json, v: Json)
    requires forall j: Json :: render(j) != "" && parse(render(j)) == Some(j)
    requires Structured(envelope, v) || AsText(render, envelope, v)
    ensures
      if Get(envelope, "isError") == Some(Bool(true)) then
        ParseToolResult(parse, envelope).Err? && ParseToolResult(parse, envelope).error.Tool?
      else
        ParseToolResult(parse, envelope) == Ok(v) <==> !LooksWrapped(v)
  {
    UnwrapWrap(v);
    if !Structured(envelope, v) {
      var block :| AsStr(Get(block, "text")) == Some(render(Wrap(v)))
                   && Get(envelope, "content") == Some(Arr([block]));
      assert [block][1..] == [];
      assert TextsOf([block]) == [render(Wrap(v))];
    }
  }

  /** A tool whose own value is `{"result": 1}` comes back as `1`. */
  lemma LookalikeIsUnwrapped(parse: string -> Option<Json>)
    ensures
      var v := Obj(map["result" := Int(1)]);
      ParseToolResult(parse, Obj(map["structuredContent" := Wrap(v)])) == Ok(Int(1))
  {
    assert |map["result" := Int(1)]| == 1;
  }
}
