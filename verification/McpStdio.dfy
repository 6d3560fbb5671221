/** The MCP client over a child process's stdin and stdout. */
module McpStdio {
  import opened Wrappers
  import opened Text
  import opened Json
  import opened ToolResult
  import opened McpSession

  class McpStdioClient {
    /** The environment, as the client meets it item by item. */
    const env: Env
    const version: string
    var nextId: nat
    var serverInfo: Json
    /** What has reached the child's stdin, and how many writes were attempted. */
    var sent: seq<Json>
    var written: nat
    /** How many outcomes of waiting for a line have been consumed. */
    var read: nat

    ghost predicate Valid()
      reads this
    {
      InTape(env, State())
    }

    function State(): Session
      reads this
    {
      Session(nextId, written, sent, read)
    }

    /** A child has been spawned; nothing is sent yet. */
    constructor (env: Env, version: string)
      ensures Valid() && State() == SPAWNED
      ensures this.env == env && this.version == version
    {
      this.env, this.version := env, version;
      nextId, serverInfo, sent, written, read := 0, Null, [], 0, 0;
    }

    method DoHandshake() returns (r: Result<(), McpError>)
      requires Valid()
      modifies this
      ensures Valid()
      ensures
        var (s, info) := Handshake(env, old(State()), version);
        && State() == s
        && r == (if info.Ok? then Ok(()) else Err(info.error))
        && (info.Ok? ==> serverInfo == info.value)
    {
      var id := TakeId();
      var ok := SendMsg(RequestMsg(id, "initialize", InitializeParams(version)));
      if !ok {
        return Err(Io);
      }
      var resp := RecvResponse(id);
      if resp.Err? {
        return Err(resp.error);
      }
      var info := Get(resp.value, "result");
      serverInfo := if info.Some? then info.value else Null;
      ok := SendMsg(INITIALIZED);
      return if ok then Ok(()) else Err(Io);
    }

    method Call(request: Request) returns (r: Result<Json, McpError>)
      requires Valid()
      modifies this
      ensures Valid() && serverInfo == old(serverInfo)
      ensures
        var (s, resp) := Exchange(env, old(State()), MethodOf(request), ParamsOf(request));
        && State() == s && r == ValueOf(env.parse, request, resp)
        && (if resp.Err? then r == resp else Reports(env.parse, request, resp.value, r))
    {
      var id := TakeId();
      var ok := SendMsg(RequestMsg(id, MethodOf(request), ParamsOf(request)));
      if !ok {
        return Err(Io);
      }
      var resp := RecvResponse(id);
      r := ValueOf(env.parse, request, resp);
      if resp.Ok? {
        AnswerReported(env.parse, request, resp.value);
      }
    }

    method TakeId() returns (id: nat)
      modifies this
      ensures id == old(nextId) && State() == old(State()).(nextId := id + 1)
      ensures serverInfo == old(serverInfo)
    {
      id := nextId;
      nextId := nextId + 1;
    }

    method SendMsg(msg: Json) returns (ok: bool)
      modifies this
      ensures (State(), ok) == Send(env, old(State()), msg)
      ensures serverInfo == old(serverInfo)
    {
      ok := env.pipeWorks(written);
      written := written + 1;
      if ok {
        sent := sent + [msg];
      }
    }

    /** Reads lines until the one whose id matches; everything else is skipped for good. */
    method RecvResponse(id: nat) returns (r: Result<Json, McpError>)
      requires Valid()
      modifies this
      ensures Valid() && serverInfo == old(serverInfo)
      ensures
        var p := FirstStop(env, id, old(read));
        && State() == old(State()).(read := if p < |env.tape| then p + 1 else p)
        && r == Outcome(env, id, p)
    {
      while true
        invariant Valid() && serverInfo == old(serverInfo)
        invariant State() == old(State()).(read := read)
        invariant FirstStop(env, id, read) == FirstStop(env, id, old(read))
        decreases |env.tape| - read
      {
        if read == |env.tape| {
          return Err(Timeout);
        }
        var next := env.tape[read];
        assert MeaningFor(env.parse, id, next).Skip? ==> FirstStop(env, id, read) == FirstStop(env, id, read + 1);
        read := read + 1;
        if !next.Line? {
          return Err(Timeout);
        }
        var trimmed := Trim(next.text);
        if trimmed != "" {
          var v := env.parse(trimmed);
          if v.None? {
            return Err(Protocol);
          }
          if AsI64(Get(v.value, "id")) == Some(id) {
            return Ok(v.value);
          }
        }
      }
    }
  }
}
