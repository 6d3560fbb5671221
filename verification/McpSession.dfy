/**
 * A JSON-RPC session over one line stream, as functions of the environment: the
 * tape of everything the channel of stdout lines will ever yield, and what the
 * stdin pipe answers to each write. The server is an adversary: any tape will do.
 */
module McpSession {
  import opened Wrappers
  import opened Text
  import opened Json
  import opened ToolResult

  /** One outcome of waiting for a line. A tape that has run out is a closed channel. */
  datatype Recv = Line(text: string) | TimedOut | Closed

  datatype Env = Env(parse: string -> Option<Json>, tape: seq<Recv>, pipeWorks: nat -> bool)

  /** `read` items of the tape are consumed, `written` writes were attempted, `sent` got through. */
  datatype Session = Session(nextId: nat, written: nat, sent: seq<Json>, read: nat)

  const SPAWNED := Session(0, 0, [], 0)

  // ---- messages ------------------------------------------------------------

  const PROTOCOL_VERSION := "2025-06-18"

  function RequestMsg(id: nat, method_: string, params: Json): Json {
    Obj(map["jsonrpc" := Str("2.0"), "id" := Int(id), "method" := Str(method_), "params" := params])
  }

  function InitializeParams(version: string): Json {
    Obj(map["protocolVersion" := Str(PROTOCOL_VERSION), "capabilities" := Obj(map[]),
            "clientInfo" := Obj(map["name" := Str("genaryx"), "version" := Str(version)])])
  }

  const INITIALIZED := Obj(map["jsonrpc" := Str("2.0"), "method" := Str("notifications/initialized")])

  // ---- receiving -----------------------------------------------------------

  datatype Meaning = Skip | Garbage | Answer(v: Json) | NoLine

  /** What one item of the tape means to a call waiting for `id`. */
  function MeaningFor(parse: string -> Option<Json>, id: nat, r: Recv): Meaning {
    match r
    case Line(text) =>
      if Trim(text) == "" then Skip
      else (match parse(Trim(text))
            case None => Garbage
            case Some(v) => if AsI64(Get(v, "id")) == Some(id) then Answer(v) else Skip)
    case _ => NoLine
  }

  /** The first position from `from` on that ends a wait for `id`. */
  function FirstStop(env: Env, id: nat, from: nat): (p: nat)
    requires from <= |env.tape|
    ensures from <= p <= |env.tape|
    ensures forall q :: from <= q < p ==> MeaningFor(env.parse, id, env.tape[q]).Skip?
    ensures p < |env.tape| ==> !MeaningFor(env.parse, id, env.tape[p]).Skip?
    decreases |env.tape| - from
  {
    if from == |env.tape| || !MeaningFor(env.parse, id, env.tape[from]).Skip? then from
    else FirstStop(env, id, from + 1)
  }

  function Outcome(env: Env, id: nat, p: nat): Result<Json, McpError>
    requires p < |env.tape| ==> !MeaningFor(env.parse, id, env.tape[p]).Skip?
  {
    if p >= |env.tape| then Err(Timeout)
    else
      match MeaningFor(env.parse, id, env.tape[p])
      case Answer(v) => Ok(v)
      case Garbage => Err(Protocol)
      case NoLine => Err(Timeout)
  }

  // ---- one exchange --------------------------------------------------------

  function Send(env: Env, s: Session, msg: Json): (Session, bool) {
    var ok := env.pipeWorks(s.written);
    (s.(written := s.written + 1, sent := if ok then s.sent + [msg] else s.sent), ok)
  }

  predicate InTape(env: Env, s: Session) {
    s.read <= |env.tape|
  }

  /** Take an id, send the request, wait for its answer. */
  function Exchange(env: Env, s: Session, method_: string, params: Json)
    : (r: (Session, Result<Json, McpError>))
    requires InTape(env, s)
    ensures InTape(env, r.0)
  {
    var id := s.nextId;
    var (t, ok) := Send(env, s.(nextId := id + 1), RequestMsg(id, method_, params));
    if !ok then (t, Err(Io))
    else
      var p := FirstStop(env, id, t.read);
      (t.(read := if p < |env.tape| then p + 1 else p), Outcome(env, id, p))
  }

  /** `initialize`, its answer, and the notification that must follow it. */
  function Handshake(env: Env, s: Session, version: string): (r: (Session, Result<Json, McpError>))
    requires InTape(env, s)
    ensures InTape(env, r.0)
  {
    var (t, resp) := Exchange(env, s, "initialize", InitializeParams(version));
    if resp.Err? then (t, resp)
    else
      var (u, ok) := Send(env, t, INITIALIZED);
      var info := Get(resp.value, "result");
      (u, if ok then Ok(if info.Some? then info.value else Null) else Err(Io))
  }

  function ResultOrRpcErr(resp: Json): Result<Json, McpError> {
    match Get(resp, "error")
    case Some(err) =>
      var code, message := AsI64(Get(err, "code")), AsStr(Get(err, "message"));
      Err(Rpc(if code.Some? then code.value else 0,
              if message.Some? then message.value else "<no message>"))
    case None =>
      match Get(resp, "result")
      case Some(v) => Ok(v)
      case None => Err(Protocol)
  }

  datatype Request = ListTools | CallTool(name: string, arguments: Json)

  function MethodOf(r: Request): string {
    if r.ListTools? then "tools/list" else "tools/call"
  }

  function ParamsOf(r: Request): Json {
    if r.ListTools? then Obj(map[]) else Obj(map["name" := Str(r.name), "arguments" := r.arguments])
  }

  /** What the caller gets for a request whose answer is `resp`. */
  function ValueOf(parse: string -> Option<Json>, r: Request, resp: Result<Json, McpError>)
    : Result<Json, McpError>
  {
    if resp.Err? then resp
    else
      var result := ResultOrRpcErr(resp.value);
      if result.Err? then result
      else if r.CallTool? then ParseToolResult(parse, result.value)
      else
        var tools := Get(result.value, "tools");
        Ok(if tools.Some? then tools.value else Arr([]))
  }

  // ---- what a caller gets --------------------------------------------------------

  /** An error object as the caller sees it. */
  ghost predicate ReportsError(err: Json, e: McpError) {
    && e.Rpc?
    && (forall n :: Get(err, "code") == Some(Int(n)) && AsI64(Some(Int(n))).Some? ==> e.code == n)
    && (AsI64(Get(err, "code")).None? ==> e.code == 0)
    && (forall m :: Get(err, "message") == Some(Str(m)) ==> e.message == m)
    && (AsStr(Get(err, "message")).None? ==> e.message == "<no message>")
  }

  /** A tool's result as the caller sees it. */
  ghost predicate ReportsResult(result: Json, r: Result<Json, McpError>) {
    && (Get(result, "isError") == Some(Bool(true)) ==> r.Err? && r.error.Tool?)
    && (forall v :: Structured(result, v) && Get(result, "isError") != Some(Bool(true)) ==>
          (r == Ok(v) <==> !LooksWrapped(v)))
  }

  /** An answer to a request as the caller sees it: an `error` comes before any `result`. */
  ghost predicate Reports(parse: string -> Option<Json>, request: Request, answer: Json, r: Result<Json, McpError>) {
    match (Get(answer, "error"), Get(answer, "result"))
    case (Some(err), _) => r.Err? && ReportsError(err, r.error)
    case (None, None) => r == Err(Protocol)
    case (None, Some(result)) =>
      match request
      case ListTools =>
        (Get(result, "tools").Some? ==> r == Ok(Get(result, "tools").value))
        && (Get(result, "tools").None? ==> r == Ok(Arr([])))
      case CallTool(_, _) => ReportsResult(result, r) && r == ParseToolResult(parse, result)
  }

  lemma ToolResultReported(parse: string -> Option<Json>, result: Json)
    ensures ReportsResult(result, ParseToolResult(parse, result))
  {
    forall v | Structured(result, v) && Get(result, "isError") != Some(Bool(true))
      ensures ParseToolResult(parse, result) == Ok(v) <==> !LooksWrapped(v)
    {
      StructuredRoundTrip(parse, result, v);
    }
  }

  lemma AnswerReported(parse: string -> Option<Json>, request: Request, answer: Json)
    ensures Reports(parse, request, answer, ValueOf(parse, request, Ok(answer)))
  {
    if Get(answer, "error").None? && Get(answer, "result").Some? && request.CallTool? {
      ToolResultReported(parse, Get(answer, "result").value);
    }
  }

  /**
   * How a wait ends: by a timeout, by a closed channel, by a line that is not
   * JSON, or by the answer; blank lines and other ids pass.
   */
  lemma WaitEnds(env: Env, id: nat, from: nat)
    requires from < |env.tape|
    ensures
      var here := FirstStop(env, id, from) == from;
      match env.tape[from]
      case Line(text) =>
        && (Trim(text) == "" ==> !here)
        && (Trim(text) != "" && env.parse(Trim(text)).None? ==> here && Outcome(env, id, from) == Err(Protocol))
        && (Trim(text) != "" && env.parse(Trim(text)).Some? ==>
              var v := env.parse(Trim(text)).value;
              if AsI64(Get(v, "id")) == Some(id) then here && Outcome(env, id, from) == Ok(v) else !here)
      case TimedOut => here && Outcome(env, id, from) == Err(Timeout)
      case Closed => here && Outcome(env, id, from) == Err(Timeout)
  {
  }

  /** An exchange whose write fails reads nothing; otherwise it reads up to the item that ends the wait. */
  lemma ExchangeMeans(env: Env, s: Session, method_: string, params: Json)
    requires InTape(env, s)
    ensures
      var (t, resp) := Exchange(env, s, method_, params);
      var p := FirstStop(env, s.nextId, s.read);
      && (!env.pipeWorks(s.written) ==> resp == Err(Io) && t.read == s.read)
      && (env.pipeWorks(s.written) && p == |env.tape| ==> resp == Err(Timeout) && t.read == p)
      && (env.pipeWorks(s.written) && p < |env.tape| ==> resp == Outcome(env, s.nextId, p) && t.read == p + 1)
  {
  }

  // ---- whole sessions ------------------------------------------------------

  /** One call of a session: its id, the stretch of tape it read, and the answer it took. */
  datatype Call = Call(id: nat, from: nat, to: nat, answer: Result<Json, McpError>)

  function Calls(env: Env, s: Session, requests: seq<Request>): (r: (Session, seq<Call>))
    requires InTape(env, s)
    ensures InTape(env, r.0) && |r.1| == |requests|
    decreases |requests|
  {
    if requests == [] then (s, [])
    else
      var (t, resp) := Exchange(env, s, MethodOf(requests[0]), ParamsOf(requests[0]));
      var (u, more) := Calls(env, t, requests[1..]);
      (u, [Call(s.nextId, s.read, t.read, resp)] + more)
  }

  /** A session: spawn, handshake, and, if that worked, any calls. */
  function Run(env: Env, version: string, requests: seq<Request>): (Session, seq<Call>) {
    var (s, info) := Handshake(env, SPAWNED, version);
    if info.Err? then (s, []) else Calls(env, s, requests)
  }

  function IdOf(env: Env, q: nat): Option<int>
    requires q < |env.tape|
  {
    match env.tape[q]
    case Line(text) =>
      (match env.parse(Trim(text))
       case Some(v) => if Trim(text) == "" then None else AsI64(Get(v, "id"))
       case None => None)
    case _ => None
  }

  /**
   * A call that succeeds took the last line it read, that line carries its id,
   * and no earlier line of that stretch does.
   */
  ghost predicate TookOwnAnswer(env: Env, c: Call) {
    && c.from <= c.to <= |env.tape|
    && (c.answer.Ok? ==>
          && c.from < c.to
          && IdOf(env, c.to - 1) == Some(c.id)
          && env.parse(Trim(env.tape[c.to - 1].text)) == Some(c.answer.value)
          && forall q :: c.from <= q < c.to - 1 ==> IdOf(env, q) != Some(c.id))
  }

  lemma OutcomeIsOwnAnswer(env: Env, id: nat, from: nat)
    requires from <= |env.tape|
    ensures
      var p := FirstStop(env, id, from);
      TookOwnAnswer(env, Call(id, from, if p < |env.tape| then p + 1 else p, Outcome(env, id, p)))
  {
    var p := FirstStop(env, id, from);
    assert forall q :: from <= q < p ==> MeaningFor(env.parse, id, env.tape[q]).Skip?;
  }

  lemma ExchangeTakesOwnAnswer(env: Env, s: Session, method_: string, params: Json)
    requires InTape(env, s)
    ensures
      var (t, resp) := Exchange(env, s, method_, params);
      && TookOwnAnswer(env, Call(s.nextId, s.read, t.read, resp))
      && t.nextId == s.nextId + 1
  {
    OutcomeIsOwnAnswer(env, s.nextId, s.read);
  }

  /**
   * Over a whole session: calls take consecutive ids, read consecutive stretches
   * of the stream, and each success is the first line of its own stretch that
   * carries its own id.
   */
  ghost predicate OwnAnswers(env: Env, s: Session, calls: seq<Call>) {
    && (forall k :: 0 <= k < |calls| ==> TookOwnAnswer(env, calls[k]) && calls[k].id == s.nextId + k)
    && (calls != [] ==> calls[0].from == s.read)
    && (forall k :: 0 < k < |calls| ==> calls[k].from == calls[k - 1].to)
  }

  lemma OwnAnswersFirst(env: Env, s: Session, t: Session, first: Call, more: seq<Call>)
    requires TookOwnAnswer(env, first) && first.id == s.nextId && first.from == s.read
    requires t.nextId == s.nextId + 1 && t.read == first.to && OwnAnswers(env, t, more)
    ensures OwnAnswers(env, s, [first] + more)
  {
    var all := [first] + more;
    forall k | 0 < k < |all| ensures all[k].from == all[k - 1].to {
      assert all[k] == more[k - 1];
      assert k > 1 ==> all[k - 1] == more[k - 2];
    }
  }

  /** Whatever the server writes and whenever calls time out. */
  lemma {:induction false} CallsTakeOwnAnswers(env: Env, s: Session, requests: seq<Request>)
    requires InTape(env, s)
    ensures OwnAnswers(env, s, Calls(env, s, requests).1)
    decreases |requests|
  {
    if requests != [] {
      var (t, resp) := Exchange(env, s, MethodOf(requests[0]), ParamsOf(requests[0]));
      ExchangeTakesOwnAnswer(env, s, MethodOf(requests[0]), ParamsOf(requests[0]));
      CallsTakeOwnAnswers(env, t, requests[1..]);
      OwnAnswersFirst(env, s, t, Call(s.nextId, s.read, t.read, resp), Calls(env, t, requests[1..]).1);
    }
  }

  /** A late answer to an earlier call is never what a later call returns. */
  lemma LateAnswerIsDiscarded(env: Env, s: Session, requests: seq<Request>, calls: seq<Call>, j: nat, k: nat)
    requires InTape(env, s) && calls == Calls(env, s, requests).1
    requires j < k < |calls| && calls[k].answer.Ok?
    ensures AsI64(Get(calls[k].answer.value, "id")) == Some(calls[k].id)
    ensures AsI64(Get(calls[k].answer.value, "id")) != Some(calls[j].id)
  {
    CallsTakeOwnAnswers(env, s, requests);
    OwnIds(env, s, calls, j, k);
  }

  lemma OwnIds(env: Env, s: Session, calls: seq<Call>, j: nat, k: nat)
    requires OwnAnswers(env, s, calls) && j < k < |calls| && calls[k].answer.Ok?
    ensures AsI64(Get(calls[k].answer.value, "id")) == Some(calls[k].id) != Some(calls[j].id)
  {
    assert TookOwnAnswer(env, calls[k]) && TookOwnAnswer(env, calls[j]);
  }

  /** Every line from `from` up to `to` carries an id below `issued`, or none. */
  ghost predicate OnlyIssuedIds(env: Env, from: nat, to: nat, issued: nat)
    requires to <= |env.tape|
  {
    forall q :: from <= q < to && IdOf(env, q).Some? ==> IdOf(env, q).value < issued
  }

  /** A server that never uses an id before the request that carries it has been made. */
  ghost predicate ServerAnswers(env: Env, s: Session, calls: seq<Call>) {
    && s.read <= |env.tape| && OnlyIssuedIds(env, 0, s.read, s.nextId)
    && (forall j :: 0 <= j < |calls| ==>
          calls[j].to <= |env.tape| && OnlyIssuedIds(env, calls[j].from, calls[j].to, calls[j].id + 1))
  }

  /** What was read before call k carries only ids of earlier requests. */
  lemma {:induction false} EarlierIds(env: Env, s: Session, calls: seq<Call>, k: nat)
    requires OwnAnswers(env, s, calls) && ServerAnswers(env, s, calls) && k < |calls|
    ensures OnlyIssuedIds(env, 0, calls[k].from, calls[k].id)
    decreases k
  {
    if k > 0 {
      EarlierIds(env, s, calls, k - 1);
      assert OnlyIssuedIds(env, calls[k - 1].from, calls[k - 1].to, calls[k - 1].id + 1);
      assert TookOwnAnswer(env, calls[k - 1]);
    }
  }

  /** The answer of `c` is the first line of the whole stream that carries its id. */
  ghost predicate AnsweredFirst(env: Env, c: Call) {
    var at := c.to - 1;
    && c.answer.Ok? && 0 <= at < |env.tape| && env.tape[at].Line? && IdOf(env, at) == Some(c.id)
    && env.parse(Trim(env.tape[at].text)) == Some(c.answer.value)
    && forall q :: 0 <= q < at ==> IdOf(env, q) != Some(c.id)
  }

  lemma OwnAnswerIsFirst(env: Env, c: Call)
    requires TookOwnAnswer(env, c) && c.answer.Ok? && OnlyIssuedIds(env, 0, c.from, c.id)
    ensures AnsweredFirst(env, c)
  {
  }

  /**
   * As long as the server uses no id before its request, every successful call
   * returns the first line of the whole stream that carries its id.
   */
  lemma FirstInStream(env: Env, s: Session, requests: seq<Request>, k: nat)
    requires InTape(env, s) && k < |requests|
    ensures
      var calls := Calls(env, s, requests).1;
      ServerAnswers(env, s, calls) && calls[k].answer.Ok? ==> AnsweredFirst(env, calls[k])
  {
    var calls := Calls(env, s, requests).1;
    if ServerAnswers(env, s, calls) && calls[k].answer.Ok? {
      CallsTakeOwnAnswers(env, s, requests);
      EarlierIds(env, s, calls, k);
      OwnAnswerIsFirst(env, calls[k]);
    }
  }

  /** The same for a whole session, whose handshake is the call with id 0. */
  lemma SessionFirstInStream(env: Env, version: string, requests: seq<Request>, calls: seq<Call>, k: nat)
    requires calls == Run(env, version, requests).1
    requires ServerAnswers(env, Handshake(env, SPAWNED, version).0, calls)
    requires k < |calls| && calls[k].answer.Ok?
    ensures calls[k].id == k + 1 && AnsweredFirst(env, calls[k])
  {
    var s := Handshake(env, SPAWNED, version).0;
    CallsTakeOwnAnswers(env, s, requests);
    FirstInStream(env, s, requests, k);
  }

  // A server that answers request 1 before it is made, then the handshake, then request 1 again.

  function Reply(id: int, n: int): Json {
    Obj(map["id" := Int(id), "result" := Int(n)])
  }

  function EagerParse(text: string): Option<Json> {
    if text == "early" then Some(Reply(1, 7)) else if text == "hello" then Some(Reply(0, 0)) else Some(Reply(1, 8))
  }

  const EAGER := Env(EagerParse, [Line("early"), Line("hello"), Line("late")], _ => true)

  lemma EagerMeanings(id: nat)
    ensures MeaningFor(EAGER.parse, id, EAGER.tape[0]) == if id == 1 then Answer(Reply(1, 7)) else Skip
    ensures MeaningFor(EAGER.parse, id, EAGER.tape[1]) == if id == 0 then Answer(Reply(0, 0)) else Skip
    ensures MeaningFor(EAGER.parse, id, EAGER.tape[2]) == if id == 1 then Answer(Reply(1, 8)) else Skip
  {
    assert Trim("early") == "early" && Trim("hello") == "hello" && Trim("late") == "late";
    assert "early"[0] == 'e' && "hello"[0] == 'h' && "late"[0] == 'l';
  }

  /** The early line is skipped by the handshake, so call 1 returns a second line with its id. */
  lemma EarlyAnswerIsMissed(version: string)
    ensures IdOf(EAGER, 0) == Some(1)
    ensures Run(EAGER, version, [ListTools]).1 == [Call(1, 2, 3, Ok(Reply(1, 8)))]
  {
    EagerMeanings(0);
    EagerMeanings(1);
    assert FirstStop(EAGER, 0, 1) == 1 && FirstStop(EAGER, 0, 0) == 1;
    var s := Handshake(EAGER, SPAWNED, version).0;
    assert s.read == 2 && s.nextId == 1;
    assert FirstStop(EAGER, 1, 2) == 2;
    assert [ListTools][1..] == [];
  }

  // ---- what goes out -------------------------------------------------------

  function MessageId(m: Json): Option<int> {
    match Get(m, "id")
    case Some(Int(n)) => Some(n)
    case _ => None
  }

  /** Requests whose ids strictly increase and lie from `lo` up to `hi`. */
  ghost predicate Ascending(msgs: seq<Json>, lo: nat, hi: nat) {
    && (forall i :: 0 <= i < |msgs| ==>
          MessageId(msgs[i]).Some? && lo <= MessageId(msgs[i]).value < hi)
    && (forall i, j :: 0 <= i < j < |msgs| ==> MessageId(msgs[i]).value < MessageId(msgs[j]).value)
    && (forall i :: 0 <= i < |msgs| ==>
          Get(msgs[i], "method") in {Some(Str("tools/list")), Some(Str("tools/call"))})
  }

  ghost predicate Sends(s: Session, t: Session) {
    s.sent <= t.sent && s.nextId <= t.nextId && Ascending(t.sent[|s.sent|..], s.nextId, t.nextId)
  }

  lemma SendsChain(s: Session, t: Session, u: Session)
    requires Sends(s, t) && Sends(t, u)
    ensures Sends(s, u)
  {
    assert u.sent[|s.sent|..] == t.sent[|s.sent|..] + u.sent[|t.sent|..];
  }

  lemma ExchangeSends(env: Env, s: Session, r: Request)
    requires InTape(env, s)
    ensures
      var t := Exchange(env, s, MethodOf(r), ParamsOf(r)).0;
      t.nextId == s.nextId + 1 && Sends(s, t)
  {
  }

  lemma {:induction false} CallsSendAscending(env: Env, s: Session, requests: seq<Request>)
    requires InTape(env, s)
    ensures
      var t := Calls(env, s, requests).0;
      t.nextId == s.nextId + |requests| && Sends(s, t)
    decreases |requests|
  {
    if requests != [] {
      ExchangeSends(env, s, requests[0]);
      var t := Exchange(env, s, MethodOf(requests[0]), ParamsOf(requests[0])).0;
      CallsSendAscending(env, t, requests[1..]);
      SendsChain(s, t, Calls(env, t, requests[1..]).0);
    }
  }

  /** A request written out. */
  function Spelled(id: nat, r: Request): Json {
    match r
    case ListTools =>
      Obj(map["jsonrpc" := Str("2.0"), "id" := Int(id), "method" := Str("tools/list"), "params" := Obj(map[])])
    case CallTool(name, arguments) =>
      Obj(map["jsonrpc" := Str("2.0"), "id" := Int(id), "method" := Str("tools/call"),
              "params" := Obj(map["name" := Str(name), "arguments" := arguments])])
  }

  /** The two messages of a handshake written out. */
  function Opening(version: string): seq<Json> {
    var client := Obj(map["name" := Str("genaryx"), "version" := Str(version)]);
    var params := Obj(map["protocolVersion" := Str("2025-06-18"), "capabilities" := Obj(map[]), "clientInfo" := client]);
    [Obj(map["jsonrpc" := Str("2.0"), "id" := Int(0), "method" := Str("initialize"), "params" := params]),
     Obj(map["jsonrpc" := Str("2.0"), "method" := Str("notifications/initialized")])]
  }

  /** What requests send one after the other, ids counted from `id` and writes from `write`. */
  function Delivered(one: (nat, nat, Request) -> seq<Json>, id: nat, write: nat, requests: seq<Request>): seq<Json>
    decreases |requests|
  {
    if requests == [] then [] else one(id, write, requests[0]) + Delivered(one, id + 1, write + 1, requests[1..])
  }

  function Fold(step: (Session, Request) -> Session, s: Session, requests: seq<Request>): Session
    decreases |requests|
  {
    if requests == [] then s else Fold(step, step(s, requests[0]), requests[1..])
  }

  /** A step takes one id and one write, and sends what `one` says. */
  ghost predicate SendsBy(step: (Session, Request) -> Session, one: (nat, nat, Request) -> seq<Json>) {
    forall s: Session, r: Request ::
      && step(s, r).sent == s.sent + one(s.nextId, s.written, r)
      && step(s, r).nextId == s.nextId + 1 && step(s, r).written == s.written + 1
  }

  lemma {:induction false} FoldDelivers(step: (Session, Request) -> Session, one: (nat, nat, Request) -> seq<Json>,
                                        s: Session, requests: seq<Request>)
    requires SendsBy(step, one)
    ensures Fold(step, s, requests).sent == s.sent + Delivered(one, s.nextId, s.written, requests)
    decreases |requests|
  {
    if requests == [] {
      assert s.sent + [] == s.sent;
    } else {
      var t, r := step(s, requests[0]), requests[0];
      assert t.sent == s.sent + one(s.nextId, s.written, r);
      FoldDelivers(step, one, t, requests[1..]);
      Associate(s.sent, one(s.nextId, s.written, r), Delivered(one, s.nextId + 1, s.written + 1, requests[1..]));
    }
  }

  /** One request, written out, if its write works. */
  function Written(env: Env, id: nat, write: nat, r: Request): seq<Json> {
    if env.pipeWorks(write) then [Spelled(id, r)] else []
  }

  function Writing(env: Env): (nat, nat, Request) -> seq<Json> {
    (id: nat, write: nat, r: Request) => Written(env, id, write, r)
  }

  function Calling(env: Env): (Session, Request) -> Session {
    (s: Session, r: Request) => AfterCall(env, s, r)
  }

  /** A session after one more call; one that has read past the tape reads nothing. */
  function AfterCall(env: Env, s: Session, r: Request): Session {
    if InTape(env, s) then Exchange(env, s, MethodOf(r), ParamsOf(r)).0
    else Send(env, s.(nextId := s.nextId + 1), RequestMsg(s.nextId, MethodOf(r), ParamsOf(r))).0
  }

  lemma ClientSpells(id: nat, r: Request)
    ensures RequestMsg(id, MethodOf(r), ParamsOf(r)) == Spelled(id, r)
  {
  }

  lemma CallSends(env: Env, s: Session, r: Request)
    ensures
      var t := AfterCall(env, s, r);
      && t.sent == s.sent + Written(env, s.nextId, s.written, r)
      && t.nextId == s.nextId + 1 && t.written == s.written + 1
  {
    ClientSpells(s.nextId, r);
    assert s.sent + [] == s.sent;
  }

  lemma {:induction false} CallsFold(env: Env, s: Session, requests: seq<Request>)
    requires InTape(env, s)
    ensures Calls(env, s, requests).0 == Fold(Calling(env), s, requests)
    decreases |requests|
  {
    if requests != [] {
      CallsFold(env, AfterCall(env, s, requests[0]), requests[1..]);
    }
  }

  /** What the calls of a session send, message by message. */
  lemma CallsDeliver(env: Env, s: Session, requests: seq<Request>)
    requires InTape(env, s)
    ensures Calls(env, s, requests).0.sent ==
            s.sent + Delivered(Writing(env), s.nextId, s.written, requests)
  {
    var step, one := Calling(env), Writing(env);
    forall s: Session, r: Request
      ensures step(s, r).sent == s.sent + one(s.nextId, s.written, r)
              && step(s, r).nextId == s.nextId + 1 && step(s, r).written == s.written + 1
    {
      CallSends(env, s, r);
    }
    CallsFold(env, s, requests);
    FoldDelivers(step, one, s, requests);
  }

  /** When a handshake works, and what it returns: the server's `result`, or null when there is none. */
  lemma HandshakeMeans(env: Env, version: string)
    ensures
      var (s, info) := Handshake(env, SPAWNED, version);
      var answer := Outcome(env, 0, FirstStop(env, 0, 0));
      && (info.Ok? <==> env.pipeWorks(0) && answer.Ok? && env.pipeWorks(1))
      && (!env.pipeWorks(0) ==> info == Err(Io))
      && (env.pipeWorks(0) && answer.Err? ==> info == answer)
      && (env.pipeWorks(0) && answer.Ok? && !env.pipeWorks(1) ==> info == Err(Io))
      && (info.Ok? && Get(answer.value, "result").Some? ==> Some(info.value) == Get(answer.value, "result"))
      && (info.Ok? && Get(answer.value, "result").None? ==> info.value == Null)
      && (info.Ok? ==> s.sent == Opening(version) && s.nextId == 1 && s.written == 2)
      && (info.Err? ==> s.sent <= Opening(version))
  {
    assert [RequestMsg(0, "initialize", InitializeParams(version)), INITIALIZED] == Opening(version);
  }

  /**
   * On the wire, in every session: `initialize` with id 0 comes first, then the
   * notification, and only then the requests, one after the other with ids from
   * 1. A failed handshake sends nothing after it.
   */
  lemma WireOrder(env: Env, version: string, requests: seq<Request>)
    ensures
      var sent := Run(env, version, requests).0.sent;
      if Handshake(env, SPAWNED, version).1.Ok? then
        sent == Opening(version) + Delivered(Writing(env), 1, 2, requests)
      else sent <= Opening(version)
  {
    HandshakeMeans(env, version);
    if Handshake(env, SPAWNED, version).1.Ok? {
      CallsDeliver(env, Handshake(env, SPAWNED, version).0, requests);
    }
  }
}
