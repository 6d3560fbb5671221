/**
 * The live stream connector: a worker that connects, decodes and reconnects,
 * and a `poll` that drains what the worker forwarded. Worker, caller, network
 * and stop signal interleave freely; each `try_recv` and each `send` is one step.
 */
module CloudSse {
  import opened Wrappers
  import opened Bytes
  import opened SseSpec
  import opened SseDecoder
  import opened SseProperties

  // ---- configuration and backoff --------------------------------------------

  const U32: nat := 0x1_0000_0000

  /** The longest Rust `Duration`, in nanoseconds. */
  const DURATION_MAX: nat := 0xFFFF_FFFF_FFFF_FFFF * 1_000_000_000 + 999_999_999

  type Duration = d: nat | d <= DURATION_MAX

  /** `sendable` says which ids can be the value of a header; with any other, no request can be built. */
  datatype Config = Config(initialBackoff: Duration, maxBackoff: Duration, maxAttempts: Option<nat>,
                           sendable: string -> bool)

  predicate CanSend(c: Config, id: Option<string>) {
    id.Some? ==> c.sendable(id.value)
  }

  predicate ValidConfig(c: Config) {
    c.maxAttempts.Some? ==> c.maxAttempts.value < U32
  }

  function Min(a: nat, b: nat): nat {
    if a <= b then a else b
  }

  function Pow2(n: nat): nat {
    if n == 0 then 1 else 2 * Pow2(n - 1)
  }

  function SaturatingMul(d: Duration, k: nat): Duration {
    Min(d * k, DURATION_MAX)
  }

  function BackoffDelay(c: Config, attempt: nat): Duration {
    if attempt == 0 then 0
    else Min(SaturatingMul(c.initialBackoff, Pow2(Min(attempt - 1, 31))), c.maxBackoff)
  }

  /** The uncapped wait after k eventless attempts: it doubles 31 times at most. */
  function Doubled(c: Config, k: nat): nat
    requires k >= 1
  {
    c.initialBackoff * Pow2(Min(k - 1, 31))
  }

  lemma {:induction false} Pow2Monotone(a: nat, b: nat)
    requires a <= b
    ensures 1 <= Pow2(a) <= Pow2(b)
    decreases b
  {
    if a < b {
      Pow2Monotone(a, b - 1);
    } else if b > 0 {
      Pow2Monotone(a - 1, b - 1);
    }
  }

  /** Saturation never shows: delays double exactly up to the cap, and never shrink. */
  lemma BackoffIsExact(c: Config, k: nat)
    requires 1 <= k
    ensures BackoffDelay(c, k) == Min(c.maxBackoff, Doubled(c, k))
    ensures BackoffDelay(c, k) <= BackoffDelay(c, k + 1) <= c.maxBackoff
  {
    Pow2Monotone(Min(k - 1, 31), Min(k, 31));
    MulMonotone(c.initialBackoff, Pow2(Min(k - 1, 31)), Pow2(Min(k, 31)));
  }

  lemma MulMonotone(d: nat, a: nat, b: nat)
    requires a <= b
    ensures d * a <= d * b
  {
  }

  // ---- states ------------------------------------------------------------------

  datatype EndReason = StartupFailed | GaveUp | Stopped | ReceiverGone

  datatype Worker =
    | Starting
    | Loop
    | Backoff(delay: Duration)
    | Connecting
    | Streaming(decoder: DecoderState, gotEvent: bool, newestId: Option<string>, toSend: seq<SseEvent>)
    | Ended(why: EndReason)

  datatype Poller = Idle | Draining(out: seq<string>) | Dropped

  /** One connection attempt: the wait before it, the id its request carries, whether it produced an event. */
  datatype Attempt = Attempt(wait: Duration, sentId: Option<string>, forwardedBefore: nat, gotEvent: bool)

  /** The second group of fields is the record of the run; no step depends on it. */
  datatype State = State(
    worker: Worker,
    attempt: nat,
    lastEventId: Option<string>,
    stop: bool,
    queue: seq<string>,
    poller: Poller,
    connections: seq<seq<Byte>>,
    forwarded: seq<SseEvent>,
    attempts: seq<Attempt>,
    results: seq<Result<seq<string>, ()>>)

  const INITIAL := State(Starting, 0, None, false, [], Idle, [], [], [], [])

  datatype Action =
    // the worker and the network
    | StartupFails | StartupWorks | LoopTop | BackoffElapsed
    | ConnectFails | ConnectWorks | Chunk(bytes: seq<Byte>) | Forward | StreamEnds | StopSeen
    // the caller
    | RequestStop | DropHandle | PollStart | TryRecv

  // ---- steps -------------------------------------------------------------------

  function Connect(s: State, wait: Duration): State {
    s.(worker := Connecting,
       attempt := (s.attempt + 1) % U32,
       attempts := s.attempts + [Attempt(wait, s.lastEventId, |s.forwarded|, false)])
  }

  function Disconnected(s: State, gotEvent: bool, newestId: Option<string>): State {
    s.(worker := Loop,
       attempt := if gotEvent then 0 else s.attempt,
       lastEventId := if newestId.Some? then newestId else s.lastEventId)
  }

  function AtLoopTop(c: Config, s: State): State {
    if s.stop then s.(worker := Ended(Stopped))
    else if c.maxAttempts.Some? && s.attempt >= c.maxAttempts.value then s.(worker := Ended(GaveUp))
    else if s.attempt > 0 then s.(worker := Backoff(BackoffDelay(c, s.attempt)))
    else Connect(s, 0)
  }

  function UpdateLast<T>(xs: seq<T>, x: T): seq<T>
    requires xs != []
  {
    xs[..|xs| - 1] + [x]
  }

  function Last<T>(xs: seq<T>): T
    requires xs != []
  {
    xs[|xs| - 1]
  }

  function ReadChunk(decode: seq<Byte> -> string, s: State, bytes: seq<Byte>): State
    requires s.worker.Streaming? && s.connections != []
  {
    var (decoder, events) := FeedResult(decode, s.worker.decoder, bytes);
    s.(worker := s.worker.(decoder := decoder, toSend := events),
       connections := UpdateLast(s.connections, Last(s.connections) + bytes))
  }

  function ForwardOne(s: State): State
    requires s.worker.Streaming? && s.worker.toSend != [] && s.attempts != []
  {
    var e := s.worker.toSend[0];
    if s.poller.Dropped? then s.(worker := Ended(ReceiverGone))
    else
      s.(worker := s.worker.(gotEvent := true,
                             newestId := if e.id.Some? then e.id else s.worker.newestId,
                             toSend := s.worker.toSend[1..]),
         queue := s.queue + [e.data],
         forwarded := s.forwarded + [e],
         attempts := UpdateLast(s.attempts, Last(s.attempts).(gotEvent := true)))
  }

  function TryRecvOne(s: State): State
    requires s.poller.Draining?
  {
    var out := s.poller.out;
    if s.queue != [] then s.(poller := Draining(out + [s.queue[0]]), queue := s.queue[1..])
    else if s.worker.Ended? && out == [] then s.(poller := Idle, results := s.results + [Err(())])
    else s.(poller := Idle, results := s.results + [Ok(out)])
  }

  /** The worker is at a point where it watches the stop signal. */
  predicate Watching(w: Worker) {
    w.Backoff? || w.Connecting? || (w.Streaming? && w.toSend == [])
  }

  /** The state after an action, or None when the action cannot happen in `s`. */
  function Step(c: Config, decode: seq<Byte> -> string, s: State, a: Action): Option<State> {
    var w := s.worker;
    match a
    case StartupFails => if w.Starting? then Some(s.(worker := Ended(StartupFailed))) else None
    case StartupWorks => if w.Starting? then Some(s.(worker := Loop)) else None
    case LoopTop => if w.Loop? then Some(AtLoopTop(c, s)) else None
    case BackoffElapsed =>
      // A zero delay is not slept: it only reads the stop signal.
      if w.Backoff? && (w.delay > 0 || !s.stop) then Some(Connect(s, w.delay)) else None
    case ConnectFails => if w.Connecting? then Some(Disconnected(s, false, None)) else None
    case ConnectWorks =>
      if w.Connecting? && CanSend(c, s.lastEventId) then
        Some(s.(worker := Streaming(FRESH, false, s.lastEventId, []), connections := s.connections + [[]]))
      else None
    case Chunk(bytes) =>
      if w.Streaming? && w.toSend == [] && s.connections != [] then Some(ReadChunk(decode, s, bytes)) else None
    case Forward =>
      if w.Streaming? && w.toSend != [] && s.attempts != [] then Some(ForwardOne(s)) else None
    case StreamEnds =>
      if w.Streaming? && w.toSend == [] then Some(Disconnected(s, w.gotEvent, w.newestId)) else None
    case StopSeen => if s.stop && Watching(w) then Some(s.(worker := Ended(Stopped))) else None
    case RequestStop => if s.poller.Idle? then Some(s.(stop := true)) else None
    case DropHandle => if s.poller.Idle? then Some(s.(stop := true, poller := Dropped, queue := [])) else None
    case PollStart => if s.poller.Idle? then Some(s.(poller := Draining([]))) else None
    case TryRecv => if s.poller.Draining? then Some(TryRecvOne(s)) else None
  }

  /** The state a whole run ends in, or None when some action could not happen. */
  function Run(c: Config, decode: seq<Byte> -> string, actions: seq<Action>): Option<State>
    decreases |actions|
  {
    if actions == [] then Some(INITIAL)
    else
      var before := Run(c, decode, actions[..|actions| - 1]);
      if before.None? then None else Step(c, decode, before.value, actions[|actions| - 1])
  }

  // ---- delivery ------------------------------------------------------------------

  function DataOf(es: seq<SseEvent>): seq<string> {
    seq(|es|, i requires 0 <= i < |es| => es[i].data)
  }

  /** The batch reading of every connection's bytes, connection by connection. */
  function AllEvents(decode: seq<Byte> -> string, connections: seq<seq<Byte>>): seq<SseEvent>
    decreases |connections|
  {
    if connections == [] then []
    else AllEvents(decode, connections[..|connections| - 1]) + BatchEvents(decode, Last(connections))
  }

  /** The concatenation of what `poll` returned with Ok. */
  function Delivered(results: seq<Result<seq<string>, ()>>): seq<string>
    decreases |results|
  {
    if results == [] then []
    else Delivered(results[..|results| - 1]) + if Last(results).Ok? then Last(results).value else []
  }

  function InHand(p: Poller): seq<string> {
    if p.Draining? then p.out else []
  }

  function ToSend(w: Worker): seq<SseEvent> {
    if w.Streaming? then w.toSend else []
  }

  /** The decoder of an open connection is where its bytes have brought it. */
  ghost predicate DecoderInStep(decode: seq<Byte> -> string, s: State) {
    s.worker.Streaming? ==>
      s.connections != [] && s.worker.decoder == FeedResult(decode, FRESH, Last(s.connections)).0
  }

  /** Every decoded event is forwarded or about to be. */
  ghost predicate NothingSkipped(decode: seq<Byte> -> string, s: State) {
    var all := AllEvents(decode, s.connections);
    if s.worker == Ended(ReceiverGone) then s.poller.Dropped? && s.forwarded <= all
    else s.forwarded + ToSend(s.worker) == all
  }

  /** Every forwarded record is delivered, in the hands of a running poll, or queued. */
  ghost predicate NothingLost(s: State) {
    if s.poller.Dropped? then Delivered(s.results) <= DataOf(s.forwarded)
    else Delivered(s.results) + InHand(s.poller) + s.queue == DataOf(s.forwarded)
  }

  /** An Err was only ever returned once everything decoded had been delivered. */
  ghost predicate ErrIsLast(s: State) {
    Err(()) in s.results ==>
      s.worker.Ended? && s.worker.why != ReceiverGone && Delivered(s.results) == DataOf(s.forwarded)
  }

  ghost predicate DeliveryInv(decode: seq<Byte> -> string, s: State) {
    DecoderInStep(decode, s) && NothingSkipped(decode, s) && NothingLost(s) && ErrIsLast(s)
  }

  lemma DataOfAppend(a: seq<SseEvent>, b: seq<SseEvent>)
    ensures DataOf(a + b) == DataOf(a) + DataOf(b)
  {
  }

  lemma DeliveredAppend(results: seq<Result<seq<string>, ()>>, r: Result<seq<string>, ()>)
    ensures Delivered(results + [r]) == Delivered(results) + if r.Ok? then r.value else []
  {
    assert (results + [r])[..|results|] == results;
  }

  lemma AllEventsUpdate(decode: seq<Byte> -> string, connections: seq<seq<Byte>>, last: seq<Byte>)
    requires connections != []
    ensures AllEvents(decode, UpdateLast(connections, last)) ==
            AllEvents(decode, connections[..|connections| - 1]) + BatchEvents(decode, last)
  {
    var c := UpdateLast(connections, last);
    assert c[..|c| - 1] == connections[..|connections| - 1];
  }

  /** A stream read so far, and then one more chunk of it. */
  lemma BatchExtends(decode: seq<Byte> -> string, read: seq<Byte>, bytes: seq<Byte>)
    ensures
      var (st, events) := FeedResult(decode, FeedResult(decode, FRESH, read).0, bytes);
      && FeedResult(decode, FRESH, read + bytes).0 == st
      && BatchEvents(decode, read + bytes) == BatchEvents(decode, read) + events
  {
    FeedTwice(decode, FRESH, read, bytes);
    BatchIsOneFeed(decode, read);
    BatchIsOneFeed(decode, read + bytes);
  }

  lemma BatchIsOneFeed(decode: seq<Byte> -> string, bs: seq<Byte>)
    ensures BatchEvents(decode, bs) == FeedResult(decode, FRESH, bs).1
  {
    DecoderRefinesBatch(decode, [bs]);
    assert [bs][1..] == [] && Concat([bs]) == bs;
    var (mid, events) := FeedResult(decode, FRESH, bs);
    assert events + [] == events;
  }

  /** A step of the worker that neither reads nor forwards anything. */
  ghost predicate WorkerOnly(s: State, t: State) {
    && t.queue == s.queue && t.poller == s.poller && t.results == s.results
    && t.connections == s.connections && t.forwarded == s.forwarded
    && ToSend(s.worker) == [] && !s.worker.Ended? && !t.worker.Streaming? && t.worker != Ended(ReceiverGone)
  }

  lemma WorkerOnlyKeeps(decode: seq<Byte> -> string, s: State, t: State)
    requires DeliveryInv(decode, s) && WorkerOnly(s, t)
    ensures DeliveryInv(decode, t)
  {
  }

  lemma WorkerKeepsDelivery(c: Config, decode: seq<Byte> -> string, s: State, a: Action)
    requires DeliveryInv(decode, s) && Step(c, decode, s, a).Some?
    requires !a.Chunk? && !a.Forward? && !a.ConnectWorks?
    requires !a.RequestStop? && !a.PollStart? && !a.DropHandle? && !a.TryRecv?
    ensures DeliveryInv(decode, Step(c, decode, s, a).value)
  {
    WorkerOnlyKeeps(decode, s, Step(c, decode, s, a).value);
  }

  lemma CallerKeepsDelivery(decode: seq<Byte> -> string, s: State)
    requires DeliveryInv(decode, s) && s.poller.Idle?
    ensures DeliveryInv(decode, s.(stop := true)) && DeliveryInv(decode, s.(poller := Draining([])))
  {
  }

  lemma ConnectKeepsDelivery(c: Config, decode: seq<Byte> -> string, s: State)
    requires DeliveryInv(decode, s) && Step(c, decode, s, ConnectWorks).Some?
    ensures DeliveryInv(decode, Step(c, decode, s, ConnectWorks).value)
  {
    assert (s.connections + [[]])[..|s.connections|] == s.connections;
    BatchIsOneFeed(decode, []);
    assert FRESH.buffer + [] == [];
    var all := AllEvents(decode, s.connections);
    assert all + [] == all;
  }

  lemma ChunkDecoded(decode: seq<Byte> -> string, connections: seq<seq<Byte>>, bytes: seq<Byte>,
                     st: DecoderState, events: seq<SseEvent>)
    requires connections != []
    requires FeedResult(decode, FeedResult(decode, FRESH, Last(connections)).0, bytes) == (st, events)
    ensures
      var now := UpdateLast(connections, Last(connections) + bytes);
      && st == FeedResult(decode, FRESH, Last(now)).0
      && AllEvents(decode, now) == AllEvents(decode, connections) + events
  {
    var read := Last(connections);
    BatchExtends(decode, read, bytes);
    AllEventsUpdate(decode, connections, read + bytes);
    var earlier := AllEvents(decode, connections[..|connections| - 1]);
    assert earlier + BatchEvents(decode, read) + events == earlier + (BatchEvents(decode, read) + events);
  }

  lemma ChunkKeepsDelivery(decode: seq<Byte> -> string, s: State, bytes: seq<Byte>)
    requires DeliveryInv(decode, s) && s.worker.Streaming? && s.worker.toSend == []
    ensures DeliveryInv(decode, ReadChunk(decode, s, bytes))
  {
    var t := ReadChunk(decode, s, bytes);
    ChunkDecoded(decode, s.connections, bytes, t.worker.decoder, t.worker.toSend);
    assert s.forwarded + [] == s.forwarded;
  }

  lemma ForwardKeepsDelivery(c: Config, decode: seq<Byte> -> string, s: State)
    requires DeliveryInv(decode, s) && Step(c, decode, s, Forward).Some?
    ensures DeliveryInv(decode, Step(c, decode, s, Forward).value)
  {
    var e := s.worker.toSend[0];
    DataOfAppend(s.forwarded, [e]);
    assert s.forwarded + [e] + s.worker.toSend[1..] == s.forwarded + s.worker.toSend;
  }

  lemma DropKeepsDelivery(decode: seq<Byte> -> string, s: State)
    requires DeliveryInv(decode, s) && s.poller.Idle?
    ensures DeliveryInv(decode, s.(stop := true, poller := Dropped, queue := []))
  {
  }

  /** Only the poll moves; the worker, its record and the stream stay as they are. */
  ghost predicate PollOnly(s: State, t: State) {
    s.poller.Draining? && !t.poller.Dropped? && t == s.(poller := t.poller, queue := t.queue, results := t.results)
  }

  lemma PollOnlyKeeps(decode: seq<Byte> -> string, s: State, t: State)
    requires DeliveryInv(decode, s) && PollOnly(s, t)
    requires Delivered(t.results) + InHand(t.poller) + t.queue == DataOf(t.forwarded)
    requires ErrIsLast(t)
    ensures DeliveryInv(decode, t)
  {
  }

  lemma TakeKeepsDelivery(decode: seq<Byte> -> string, s: State)
    requires DeliveryInv(decode, s) && s.poller.Draining? && s.queue != []
    ensures DeliveryInv(decode, TryRecvOne(s))
  {
    TakeOne(Delivered(s.results), s.poller.out, s.queue);
    PollOnlyKeeps(decode, s, TryRecvOne(s));
  }

  lemma TakeOne(before: seq<string>, out: seq<string>, queue: seq<string>)
    requires queue != []
    ensures before + (out + [queue[0]]) + queue[1..] == before + out + queue
  {
  }

  /** A poll returns what it has in hand, or an error when it has nothing. */
  lemma ReturnDelivers(results: seq<Result<seq<string>, ()>>, r: Result<seq<string>, ()>, out: seq<string>)
    requires r == Ok(out) || (r == Err(()) && out == [])
    ensures Delivered(results + [r]) == Delivered(results) + out
    ensures Err(()) in results + [r] <==> Err(()) in results || r == Err(())
  {
    DeliveredAppend(results, r);
  }

  lemma ReturnKeepsDelivery(decode: seq<Byte> -> string, s: State, r: Result<seq<string>, ()>)
    requires DeliveryInv(decode, s) && s.poller.Draining? && s.queue == []
    requires r == if s.worker.Ended? && s.poller.out == [] then Err(()) else Ok(s.poller.out)
    ensures DeliveryInv(decode, s.(poller := Idle, results := s.results + [r]))
  {
    var t := s.(poller := Idle, results := s.results + [r]);
    ReturnDelivers(s.results, r, s.poller.out);
    var all := Delivered(s.results) + s.poller.out;
    assert all + [] == all && all + [] + [] == all;
    PollOnlyKeeps(decode, s, t);
  }

  lemma TryRecvKeepsDelivery(decode: seq<Byte> -> string, s: State)
    requires DeliveryInv(decode, s) && s.poller.Draining?
    ensures DeliveryInv(decode, TryRecvOne(s))
  {
    if s.queue != [] {
      TakeKeepsDelivery(decode, s);
    } else {
      ReturnKeepsDelivery(decode, s, if s.worker.Ended? && s.poller.out == [] then Err(()) else Ok(s.poller.out));
    }
  }

  lemma {:induction false} DeliveryHolds(c: Config, decode: seq<Byte> -> string, actions: seq<Action>)
    requires Run(c, decode, actions).Some?
    ensures DeliveryInv(decode, Run(c, decode, actions).value)
    decreases |actions|
  {
    if actions != [] {
      var a, before := actions[|actions| - 1], actions[..|actions| - 1];
      DeliveryHolds(c, decode, before);
      var s := Run(c, decode, before).value;
      match a
      case Chunk(bytes) => ChunkKeepsDelivery(decode, s, bytes);
      case Forward => ForwardKeepsDelivery(c, decode, s);
      case ConnectWorks => ConnectKeepsDelivery(c, decode, s);
      case RequestStop => CallerKeepsDelivery(decode, s);
      case PollStart => CallerKeepsDelivery(decode, s);
      case DropHandle => DropKeepsDelivery(decode, s);
      case TryRecv => TryRecvKeepsDelivery(decode, s);
      case _ => WorkerKeepsDelivery(c, decode, s, a);
    }
  }

  lemma DeliveryMeans(decode: seq<Byte> -> string, s: State)
    requires DeliveryInv(decode, s)
    ensures
      var all := DataOf(AllEvents(decode, s.connections));
      && Delivered(s.results) <= all
      && (!s.poller.Dropped? ==>
            Delivered(s.results) + InHand(s.poller) + s.queue + DataOf(ToSend(s.worker)) == all)
      && (Err(()) in s.results ==> s.worker.Ended? && Delivered(s.results) == all)
  {
    var all := AllEvents(decode, s.connections);
    if s.worker == Ended(ReceiverGone) {
      assert all == s.forwarded + all[|s.forwarded|..];
      DataOfAppend(s.forwarded, all[|s.forwarded|..]);
    } else {
      DataOfAppend(s.forwarded, ToSend(s.worker));
    }
  }

  /**
   * End to end, over every interleaving: what poll has returned is a prefix of
   * what the bytes of all connections decode to, in order; nothing in between is
   * lost while the handle lives; and an Err means that everything was delivered
   * and the worker is gone.
   */
  lemma DeliveredInOrder(c: Config, decode: seq<Byte> -> string, actions: seq<Action>, s: State)
    requires Run(c, decode, actions) == Some(s)
    ensures
      var all := DataOf(AllEvents(decode, s.connections));
      && Delivered(s.results) <= all
      && (!s.poller.Dropped? ==>
            Delivered(s.results) + InHand(s.poller) + s.queue + DataOf(ToSend(s.worker)) == all)
      && (Err(()) in s.results ==> s.worker.Ended? && Delivered(s.results) == all)
  {
    DeliveryHolds(c, decode, actions);
    DeliveryMeans(decode, s);
  }

  /** A poll that nothing interrupts: it hands over the whole queue, or reports the end. */
  function Drain(s: State): (t: State)
    requires s.poller.Draining?
    ensures t.poller.Idle? && t.queue == []
    ensures t.results == s.results +
                         [if s.worker.Ended? && s.poller.out + s.queue == [] then Err(())
                          else Ok(s.poller.out + s.queue)]
    ensures t.worker == s.worker && t.forwarded == s.forwarded
    decreases |s.queue|
  {
    var next := TryRecvOne(s);
    if s.queue == [] then
      assert s.poller.out + s.queue == s.poller.out;
      next
    else
      assert s.poller.out + [s.queue[0]] + s.queue[1..] == s.poller.out + s.queue;
      Drain(next)
  }

  // ---- reconnecting --------------------------------------------------------------

  /** How many attempts in a row, counted from the latest back, produced no event. */
  function Streak(attempts: seq<Attempt>): nat
    decreases |attempts|
  {
    if attempts == [] || Last(attempts).gotEvent then 0
    else 1 + Streak(attempts[..|attempts| - 1])
  }

  /** The id of the latest event that carried one. */
  function LatestId(es: seq<SseEvent>): Option<string>
    decreases |es|
  {
    if es == [] then None
    else if Last(es).id.Some? then Last(es).id
    else LatestId(es[..|es| - 1])
  }

  /** The wait before an attempt and the id it sends, given all that went before it. */
  ghost predicate AttemptExact(c: Config, s: State, i: nat)
    requires i < |s.attempts|
  {
    var a := s.attempts[i];
    && a.wait == BackoffDelay(c, Streak(s.attempts[..i]) % U32)
    && a.forwardedBefore <= |s.forwarded|
    && a.sentId == LatestId(s.forwarded[..a.forwardedBefore])
    && (c.maxAttempts.Some? ==> Streak(s.attempts[..i]) < c.maxAttempts.value)
  }

  /** The loop variables are exactly what the record of the run says. */
  ghost predicate LoopVariables(c: Config, s: State) {
    var n := |s.attempts|;
    match s.worker
    case Starting => s.attempt == 0 && n == 0 && s.forwarded == [] && s.lastEventId == None
    case Loop => s.attempt == Streak(s.attempts) % U32 && s.lastEventId == LatestId(s.forwarded)
    case Backoff(delay) =>
      && s.attempt == Streak(s.attempts) % U32 && s.lastEventId == LatestId(s.forwarded)
      && delay == BackoffDelay(c, s.attempt)
      && (c.maxAttempts.Some? ==> Streak(s.attempts) < c.maxAttempts.value)
    case Connecting =>
      && n > 0 && !Last(s.attempts).gotEvent
      && s.attempt == Streak(s.attempts) % U32 && s.lastEventId == LatestId(s.forwarded)
    case Streaming(_, got, newest, _) =>
      && n > 0 && Last(s.attempts).gotEvent == got && newest == LatestId(s.forwarded)
      && (newest.None? ==> s.lastEventId.None?)
      && (!got ==> s.attempt == Streak(s.attempts) % U32)
    case Ended(why) =>
      why == GaveUp ==> c.maxAttempts.Some? && Streak(s.attempts) == c.maxAttempts.value
  }

  ghost predicate AttemptsExact(c: Config, s: State) {
    forall i :: 0 <= i < |s.attempts| ==> AttemptExact(c, s, i)
  }

  ghost predicate ReconnectInv(c: Config, s: State) {
    && LoopVariables(c, s)
    && AttemptsExact(c, s)
    && (c.maxAttempts.Some? ==> Streak(s.attempts) <= c.maxAttempts.value)
  }

  lemma LatestIdAppend(es: seq<SseEvent>, e: SseEvent)
    ensures LatestId(es + [e]) == if e.id.Some? then e.id else LatestId(es)
  {
    assert (es + [e])[..|es|] == es;
  }

  lemma StreakAppend(attempts: seq<Attempt>, a: Attempt)
    ensures Streak(attempts + [a]) == if a.gotEvent then 0 else 1 + Streak(attempts)
  {
    assert (attempts + [a])[..|attempts|] == attempts;
  }

  lemma AttemptAdded(c: Config, s: State, wait: Duration)
    requires AttemptsExact(c, s) && s.lastEventId == LatestId(s.forwarded)
    requires wait == BackoffDelay(c, Streak(s.attempts) % U32)
    requires c.maxAttempts.Some? ==> Streak(s.attempts) < c.maxAttempts.value
    ensures AttemptsExact(c, Connect(s, wait))
  {
    var t := Connect(s, wait);
    assert s.forwarded[..|s.forwarded|] == s.forwarded;
    forall i | 0 <= i < |t.attempts| ensures AttemptExact(c, t, i) {
      assert t.attempts[..i] == s.attempts[..i];
      if i < |s.attempts| {
        assert AttemptExact(c, s, i);
      } else {
        assert s.attempts[..i] == s.attempts;
      }
    }
  }

  lemma ConnectKeepsReconnect(c: Config, s: State, wait: Duration)
    requires ValidConfig(c) && ReconnectInv(c, s) && (s.worker.Loop? || s.worker.Backoff?)
    requires wait == BackoffDelay(c, s.attempt)
    requires c.maxAttempts.Some? ==> Streak(s.attempts) < c.maxAttempts.value
    ensures ReconnectInv(c, Connect(s, wait))
  {
    AttemptAdded(c, s, wait);
    StreakAppend(s.attempts, Attempt(wait, s.lastEventId, |s.forwarded|, false));
    NextAttempt(Streak(s.attempts));
  }

  lemma NextAttempt(k: nat)
    ensures (k % U32 + 1) % U32 == (k + 1) % U32
  {
  }

  lemma ForwardKeepsReconnect(c: Config, s: State)
    requires ReconnectInv(c, s) && s.worker.Streaming? && s.worker.toSend != [] && s.attempts != []
    ensures ReconnectInv(c, ForwardOne(s))
  {
    var t, e := ForwardOne(s), s.worker.toSend[0];
    LatestIdAppend(s.forwarded, e);
    forall i | 0 <= i < |t.attempts| ensures AttemptExact(c, t, i) {
      assert AttemptExact(c, s, i);
      assert t.attempts[..i] == s.attempts[..i];
      assert t.forwarded[..t.attempts[i].forwardedBefore] == s.forwarded[..s.attempts[i].forwardedBefore];
    }
  }

  /** Nothing the reconnect invariant speaks of has changed but the worker's position. */
  lemma SameRecord(c: Config, s: State, t: State)
    requires ReconnectInv(c, s) && t.attempts == s.attempts && t.forwarded == s.forwarded
    ensures AttemptsExact(c, t) && (c.maxAttempts.Some? ==> Streak(t.attempts) <= c.maxAttempts.value)
  {
    forall i | 0 <= i < |t.attempts| ensures AttemptExact(c, t, i) {
      assert AttemptExact(c, s, i);
    }
  }

  lemma CallerKeepsReconnect(c: Config, s: State, t: State)
    requires ReconnectInv(c, s)
    requires t == s.(stop := t.stop, poller := t.poller, queue := t.queue, results := t.results)
    ensures ReconnectInv(c, t)
  {
    SameRecord(c, s, t);
  }

  lemma EndKeepsReconnect(c: Config, s: State, why: EndReason)
    requires ReconnectInv(c, s) && why != GaveUp
    ensures ReconnectInv(c, s.(worker := Ended(why)))
  {
    SameRecord(c, s, s.(worker := Ended(why)));
  }

  lemma DisconnectKeepsReconnect(c: Config, s: State)
    requires ReconnectInv(c, s)
    ensures s.worker.Connecting? ==> ReconnectInv(c, Disconnected(s, false, None))
    ensures s.worker.Streaming? ==> ReconnectInv(c, Disconnected(s, s.worker.gotEvent, s.worker.newestId))
  {
    SameRecord(c, s, Disconnected(s, false, None));
    if s.worker.Streaming? {
      SameRecord(c, s, Disconnected(s, s.worker.gotEvent, s.worker.newestId));
    }
  }

  lemma OthersKeepReconnect(c: Config, decode: seq<Byte> -> string, s: State, a: Action)
    requires ReconnectInv(c, s) && Step(c, decode, s, a).Some?
    requires a.StartupWorks? || a.ConnectWorks? || a.Chunk?
    ensures ReconnectInv(c, Step(c, decode, s, a).value)
  {
    SameRecord(c, s, Step(c, decode, s, a).value);
  }

  lemma LoopTopKeepsReconnect(c: Config, s: State)
    requires ValidConfig(c) && ReconnectInv(c, s) && s.worker.Loop?
    ensures ReconnectInv(c, AtLoopTop(c, s))
  {
    SameRecord(c, s, AtLoopTop(c, s).(attempts := s.attempts));
    BelowBudget(c, s);
    if AtLoopTop(c, s).worker.Connecting? {
      ConnectKeepsReconnect(c, s, 0);
    }
  }

  /** Within a budget the counter is the streak itself. */
  lemma BelowBudget(c: Config, s: State)
    requires ValidConfig(c) && ReconnectInv(c, s) && s.worker.Loop?
    ensures c.maxAttempts.Some? ==> s.attempt == Streak(s.attempts) <= c.maxAttempts.value
  {
  }

  lemma {:induction false} ReconnectHolds(c: Config, decode: seq<Byte> -> string, actions: seq<Action>)
    requires ValidConfig(c) && Run(c, decode, actions).Some?
    ensures ReconnectInv(c, Run(c, decode, actions).value)
    decreases |actions|
  {
    if actions != [] {
      var a, before := actions[|actions| - 1], actions[..|actions| - 1];
      ReconnectHolds(c, decode, before);
      var s := Run(c, decode, before).value;
      match a
      case Forward => ForwardKeepsReconnect(c, s);
      case LoopTop => LoopTopKeepsReconnect(c, s);
      case BackoffElapsed => ConnectKeepsReconnect(c, s, s.worker.delay);
      case StartupFails => EndKeepsReconnect(c, s, StartupFailed);
      case StopSeen => EndKeepsReconnect(c, s, Stopped);
      case ConnectFails => DisconnectKeepsReconnect(c, s);
      case StreamEnds => DisconnectKeepsReconnect(c, s);
      case RequestStop => CallerKeepsReconnect(c, s, Run(c, decode, actions).value);
      case DropHandle => CallerKeepsReconnect(c, s, Run(c, decode, actions).value);
      case PollStart => CallerKeepsReconnect(c, s, Run(c, decode, actions).value);
      case TryRecv => CallerKeepsReconnect(c, s, Run(c, decode, actions).value);
      case _ => OthersKeepReconnect(c, decode, s, a);
    }
  }

  /**
   * In every run: each attempt waited the backoff of the streak of eventless
   * attempts right before it (none after an attempt that produced an event), and
   * its request carries the id of the latest event forwarded until then, over all connections;
   * and the worker gives up exactly when the streak has reached the budget.
   */
  lemma ReconnectIsExact(c: Config, decode: seq<Byte> -> string, actions: seq<Action>, s: State)
    requires ValidConfig(c) && Run(c, decode, actions) == Some(s)
    ensures forall i :: 0 <= i < |s.attempts| ==> AttemptExact(c, s, i)
    ensures s.worker == Ended(GaveUp) ==> c.maxAttempts == Some(Streak(s.attempts))
    ensures s.worker.Loop? && !s.stop ==>
              (AtLoopTop(c, s).worker == Ended(GaveUp) <==> c.maxAttempts == Some(Streak(s.attempts)))
  {
    ReconnectHolds(c, decode, actions);
    if s.worker.Loop? && !s.stop {
      GiveUpMeans(c, s);
    }
  }

  lemma GiveUpMeans(c: Config, s: State)
    requires ValidConfig(c) && ReconnectInv(c, s) && s.worker.Loop? && !s.stop
    ensures AtLoopTop(c, s).worker == Ended(GaveUp) <==> c.maxAttempts == Some(Streak(s.attempts))
  {
    if c.maxAttempts.Some? {
      assert Streak(s.attempts) % U32 == Streak(s.attempts);
    }
  }

  lemma WaitExact(c: Config, s: State, i: nat)
    requires ValidConfig(c) && i < |s.attempts| && AttemptExact(c, s, i)
    requires c.maxAttempts.Some? || Streak(s.attempts[..i]) < U32
    ensures
      var k := Streak(s.attempts[..i]);
      && (c.maxAttempts.Some? ==> k < c.maxAttempts.value)
      && s.attempts[i].wait == if k == 0 then 0 else Min(c.maxBackoff, Doubled(c, k))
  {
    var k := Streak(s.attempts[..i]);
    assert k % U32 == k;
    if k > 0 {
      BackoffIsExact(c, k);
    }
  }

  /**
   * With a retry budget, or for fewer than 2^32 eventless attempts in a row, the
   * counter does not wrap: after k of them (k below the budget) the next attempt
   * waits min(cap, initial * 2^min(k-1, 31)).
   */
  lemma WaitsInAStreak(c: Config, decode: seq<Byte> -> string, actions: seq<Action>, s: State, i: nat)
    requires ValidConfig(c) && Run(c, decode, actions) == Some(s) && i < |s.attempts|
    requires c.maxAttempts.Some? || Streak(s.attempts[..i]) < U32
    ensures
      var k := Streak(s.attempts[..i]);
      && (c.maxAttempts.Some? ==> k < c.maxAttempts.value)
      && s.attempts[i].wait == if k == 0 then 0 else Min(c.maxBackoff, Doubled(c, k))
  {
    ReconnectHolds(c, decode, actions);
    WaitExact(c, s, i);
  }

  // ---- stopping ------------------------------------------------------------------

  /** Stopping and dropping set the signal, and nothing ever clears it. */
  lemma StopStays(c: Config, decode: seq<Byte> -> string, s: State, a: Action)
    requires Step(c, decode, s, a).Some?
    ensures s.stop || a.RequestStop? || a.DropHandle? ==> Step(c, decode, s, a).value.stop
  {
  }

  /** Between attempts the signal leaves the worker nothing to do but end; while it waits it may end at once. */
  lemma StopEndsWorker(c: Config, decode: seq<Byte> -> string, s: State, a: Action)
    requires s.stop
    ensures s.worker.Loop? && Step(c, decode, s, a).Some? ==>
              Step(c, decode, s, a).value.worker == if a.LoopTop? then Ended(Stopped) else Loop
    ensures s.worker.Loop? ==> Step(c, decode, s, LoopTop).Some?
    ensures s.worker.Backoff? || s.worker.Connecting? || (s.worker.Streaming? && s.worker.toSend == []) ==>
              Step(c, decode, s, StopSeen) == Some(s.(worker := Ended(Stopped)))
  {
  }

  /** The attempts made, and the one that a wait under way may still lead to. */
  function AttemptsLeft(s: State): nat {
    |s.attempts| + if s.worker.Backoff? && s.worker.delay > 0 then 1 else 0
  }

  lemma StoppedStep(c: Config, decode: seq<Byte> -> string, s: State, a: Action)
    requires s.stop && Step(c, decode, s, a).Some?
    ensures AttemptsLeft(Step(c, decode, s, a).value) <= AttemptsLeft(s)
  {
  }

  /**
   * Once stopped, always stopped: every continuation makes no attempt but the
   * one that a wait already under way may still lead to.
   */
  lemma {:induction false} StopIsFinal(c: Config, decode: seq<Byte> -> string, actions: seq<Action>, s: State,
                                       more: seq<Action>, t: State)
    requires Run(c, decode, actions) == Some(s) && s.stop && Run(c, decode, actions + more) == Some(t)
    ensures t.stop && |t.attempts| <= |s.attempts| + if s.worker.Backoff? && s.worker.delay > 0 then 1 else 0
    ensures AttemptsLeft(t) <= AttemptsLeft(s)
    decreases |more|
  {
    if more == [] {
      assert actions + more == actions;
    } else {
      var fewer, a := more[..|more| - 1], more[|more| - 1];
      assert (actions + more)[..|actions + more| - 1] == actions + fewer;
      var u := Run(c, decode, actions + fewer).value;
      StopIsFinal(c, decode, actions, s, fewer, u);
      StopStays(c, decode, u, a);
      StoppedStep(c, decode, u, a);
    }
  }

  /** A dropped handle takes nothing more, and the first record sent to it ends the worker. */
  lemma DroppedStep(c: Config, decode: seq<Byte> -> string, s: State, a: Action)
    requires s.poller.Dropped? && Step(c, decode, s, a).Some?
    ensures
      var t := Step(c, decode, s, a).value;
      && t.poller.Dropped? && t.queue == s.queue && t.forwarded == s.forwarded && t.results == s.results
      && (a.Forward? ==> t.worker == Ended(ReceiverGone))
  {
  }

  lemma {:induction false} DropIsFinal(c: Config, decode: seq<Byte> -> string, actions: seq<Action>, s: State,
                                       more: seq<Action>, t: State)
    requires Run(c, decode, actions) == Some(s) && s.poller.Dropped? && Run(c, decode, actions + more) == Some(t)
    ensures t.poller.Dropped? && t.queue == s.queue && t.forwarded == s.forwarded && t.results == s.results
    decreases |more|
  {
    if more == [] {
      assert actions + more == actions;
    } else {
      var fewer := more[..|more| - 1];
      assert (actions + more)[..|actions + more| - 1] == actions + fewer;
      var u := Run(c, decode, actions + fewer).value;
      DropIsFinal(c, decode, actions, s, fewer, u);
      DroppedStep(c, decode, u, more[|more| - 1]);
    }
  }

  /** An ended worker stays ended, and reads, forwards and attempts nothing more. */
  lemma EndedStep(c: Config, decode: seq<Byte> -> string, s: State, a: Action)
    requires s.worker.Ended? && Step(c, decode, s, a).Some?
    ensures
      var t := Step(c, decode, s, a).value;
      && t.worker == s.worker && t.attempts == s.attempts && t.connections == s.connections
      && t.forwarded == s.forwarded
  {
  }

  // ---- ids that are no header values ---------------------------------------------

  /** Only attempts whose id can be sent ever stream. */
  ghost predicate OnlySendableStream(c: Config, s: State) {
    && (forall i :: 0 <= i < |s.attempts| && s.attempts[i].gotEvent ==> CanSend(c, s.attempts[i].sentId))
    && (s.worker.Connecting? ==> s.attempts != [] && Last(s.attempts).sentId == s.lastEventId)
    && (s.worker.Streaming? ==> s.attempts != [] && CanSend(c, Last(s.attempts).sentId))
  }

  lemma StepKeepsSendable(c: Config, decode: seq<Byte> -> string, s: State, a: Action)
    requires OnlySendableStream(c, s) && Step(c, decode, s, a).Some?
    ensures OnlySendableStream(c, Step(c, decode, s, a).value)
  {
  }

  lemma {:induction false} SendableHolds(c: Config, decode: seq<Byte> -> string, actions: seq<Action>)
    requires Run(c, decode, actions).Some?
    ensures OnlySendableStream(c, Run(c, decode, actions).value)
    decreases |actions|
  {
    if actions != [] {
      var before := actions[..|actions| - 1];
      SendableHolds(c, decode, before);
      StepKeepsSendable(c, decode, Run(c, decode, before).value, actions[|actions| - 1]);
    }
  }

  /** Not connected, and the id to send next is no header value. */
  ghost predicate Stuck(c: Config, s: State, id: string) {
    !s.worker.Starting? && !s.worker.Streaming? && s.lastEventId == Some(id) && !c.sendable(id)
  }

  /** Nothing was connected or forwarded since, and every attempt since carries that id, in vain. */
  ghost predicate OnlyVainAttempts(s: State, t: State, id: string) {
    && t.connections == s.connections && t.forwarded == s.forwarded && s.attempts <= t.attempts
    && forall i :: |s.attempts| <= i < |t.attempts| ==> t.attempts[i].sentId == Some(id) && !t.attempts[i].gotEvent
  }

  lemma StepStaysStuck(c: Config, decode: seq<Byte> -> string, s: State, t: State, a: Action, id: string)
    requires Stuck(c, t, id) && OnlyVainAttempts(s, t, id) && Step(c, decode, t, a).Some?
    ensures Stuck(c, Step(c, decode, t, a).value, id) && OnlyVainAttempts(s, Step(c, decode, t, a).value, id)
  {
  }

  lemma {:induction false} StaysStuck(c: Config, decode: seq<Byte> -> string, actions: seq<Action>, s: State,
                                      more: seq<Action>, id: string)
    requires Run(c, decode, actions) == Some(s) && Stuck(c, s, id)
    requires Run(c, decode, actions + more).Some?
    ensures
      var t := Run(c, decode, actions + more).value;
      Stuck(c, t, id) && OnlyVainAttempts(s, t, id)
    decreases |more|
  {
    if more == [] {
      assert actions + more == actions;
    } else {
      var fewer := more[..|more| - 1];
      assert (actions + more)[..|actions + more| - 1] == actions + fewer;
      StaysStuck(c, decode, actions, s, fewer, id);
      StepStaysStuck(c, decode, s, Run(c, decode, actions + fewer).value, more[|more| - 1], id);
    }
  }

  /**
   * Once the latest forwarded id is no header value and its connection is over,
   * the stream is over: in every continuation no connection is made, nothing is
   * forwarded, and every attempt carries that id in vain.
   */
  lemma UnsendableIdEndsStream(c: Config, decode: seq<Byte> -> string, actions: seq<Action>, s: State,
                               more: seq<Action>, t: State, id: string)
    requires ValidConfig(c) && Run(c, decode, actions) == Some(s) && Run(c, decode, actions + more) == Some(t)
    requires s.worker.Loop? || s.worker.Backoff? || s.worker.Connecting?
    requires LatestId(s.forwarded) == Some(id) && !c.sendable(id)
    ensures OnlyVainAttempts(s, t, id)
  {
    ReconnectHolds(c, decode, actions);
    StaysStuck(c, decode, actions, s, more, id);
  }

  /** In every run, only an attempt whose id is a header value produces events. */
  lemma OnlySendableAttempts(c: Config, decode: seq<Byte> -> string, actions: seq<Action>, s: State, i: nat)
    requires Run(c, decode, actions) == Some(s) && i < |s.attempts| && s.attempts[i].gotEvent
    ensures CanSend(c, s.attempts[i].sentId)
  {
    SendableHolds(c, decode, actions);
  }

  // ---- the counter wraps ---------------------------------------------------------

  lemma MulStrict(d: nat, a: nat, b: nat)
    requires a < b && d > 0
    ensures d * a < d * b
  {
  }

  lemma CapHides(cap: nat, x: nat, y: nat)
    requires x < y
    ensures Min(cap, x) == Min(cap, y) <==> Min(cap, x) == cap
  {
  }

  lemma {:induction false} Pow2Strict(a: nat, b: nat)
    requires a < b
    ensures Pow2(a) < Pow2(b)
    decreases b
  {
    Pow2Monotone(a, b - 1);
  }

  /** A wait of j < 32 doublings short of the full 31 shows, unless there is nothing to double or the cap hides it. */
  lemma ShortWait(c: Config, j: nat, k: nat)
    requires j < 32 < k
    ensures BackoffDelay(c, j) == Min(c.maxBackoff, Doubled(c, k))
            <==> c.initialBackoff == 0 || BackoffDelay(c, j) == c.maxBackoff
  {
    assert Min(k - 1, 31) == 31;
    if j > 0 {
      BackoffIsExact(c, j);
    }
    if c.initialBackoff > 0 {
      var short := if j == 0 then 0 else Pow2(Min(j - 1, 31));
      if j > 0 {
        Pow2Strict(j - 1, 31);
      } else {
        Pow2Monotone(0, 31);
      }
      MulStrict(c.initialBackoff, short, Pow2(31));
      CapHides(c.maxBackoff, c.initialBackoff * short, c.initialBackoff * Pow2(31));
    }
  }

  lemma LongWait(c: Config, j: nat, k: nat)
    requires 32 <= j && 32 <= k
    ensures BackoffDelay(c, j) == Min(c.maxBackoff, Doubled(c, k))
  {
    BackoffIsExact(c, j);
    assert Min(j - 1, 31) == Min(k - 1, 31);
  }

  lemma CounterWait(c: Config, k: nat, j: nat, wrapped: bool)
    requires k >= 1 && if wrapped then k > 32 else j == k
    ensures BackoffDelay(c, j) == Min(c.maxBackoff, Doubled(c, k))
            <==> !wrapped || j >= 32 || c.initialBackoff == 0 || BackoffDelay(c, j) == c.maxBackoff
  {
    if !wrapped {
      BackoffIsExact(c, k);
    } else if j < 32 {
      ShortWait(c, j, k);
    } else {
      LongWait(c, j, k);
    }
  }

  /**
   * The counter after k eventless attempts is k modulo 2^32, and the wait it
   * gives is the intended one if and only if the counter has not wrapped, or it
   * has come round to 32 again, or there is nothing to double, or the cap is no
   * more than the doublings the counter still gives.
   */
  lemma WrappedWait(c: Config, k: nat)
    requires k >= 1
    ensures BackoffDelay(c, k % U32) == Min(c.maxBackoff, Doubled(c, k))
            <==> || k < U32 || k % U32 >= 32 || c.initialBackoff == 0
                 || c.maxBackoff <= if k % U32 == 0 then 0 else Doubled(c, k % U32)
  {
    CounterWait(c, k, k % U32, k >= U32);
    if k % U32 > 0 {
      BackoffIsExact(c, k % U32);
    }
  }

  /** Between attempts, with nothing but eventless attempts so far. */
  ghost predicate Eventless(s: State, n: nat) {
    s.worker.Loop? && !s.stop && |s.attempts| == n && Streak(s.attempts) == n && s.attempt == n % U32
  }

  lemma RunMore(c: Config, decode: seq<Byte> -> string, actions: seq<Action>, a: Action)
    requires Run(c, decode, actions).Some?
    ensures Run(c, decode, actions + [a]) == Step(c, decode, Run(c, decode, actions).value, a)
  {
    assert (actions + [a])[..|actions|] == actions;
  }

  /** From such a state, without a budget, the next attempt can be made, and waits for the counter. */
  lemma NextConnects(c: Config, decode: seq<Byte> -> string, actions: seq<Action>, s: State, n: nat)
    returns (more: seq<Action>)
    requires c.maxAttempts.None? && Run(c, decode, actions) == Some(s) && Eventless(s, n)
    ensures Run(c, decode, more) == Some(Connect(s, BackoffDelay(c, n % U32)))
  {
    RunMore(c, decode, actions, LoopTop);
    more := actions + [LoopTop];
    if s.attempt > 0 {
      RunMore(c, decode, more, BackoffElapsed);
      more := more + [BackoffElapsed];
    }
  }

  lemma FailedAttempt(s: State, n: nat, wait: Duration)
    requires Eventless(s, n)
    ensures Connect(s, wait).worker.Connecting? && Eventless(Disconnected(Connect(s, wait), false, None), n + 1)
  {
    StreakAppend(s.attempts, Attempt(wait, s.lastEventId, |s.forwarded|, false));
    NextAttempt(n);
  }

  lemma {:induction false} EventlessRun(c: Config, decode: seq<Byte> -> string, n: nat)
    returns (actions: seq<Action>)
    requires c.maxAttempts.None?
    ensures Run(c, decode, actions).Some? && Eventless(Run(c, decode, actions).value, n)
    decreases n
  {
    if n == 0 {
      RunMore(c, decode, [], StartupWorks);
      actions := [] + [StartupWorks];
    } else {
      var before := EventlessRun(c, decode, n - 1);
      var s := Run(c, decode, before).value;
      var connecting := NextConnects(c, decode, before, s, n - 1);
      FailedAttempt(s, n - 1, BackoffDelay(c, (n - 1) % U32));
      RunMore(c, decode, connecting, ConnectFails);
      actions := connecting + [ConnectFails];
    }
  }

  /**
   * Without a budget every streak is reached: some run makes an attempt right
   * after k eventless ones, and it waits for k modulo 2^32.
   */
  lemma EveryStreakIsReached(c: Config, decode: seq<Byte> -> string, k: nat)
    returns (actions: seq<Action>, s: State)
    requires c.maxAttempts.None?
    ensures Run(c, decode, actions) == Some(s) && |s.attempts| == k + 1
    ensures Streak(s.attempts[..k]) == k && s.attempts[k].wait == BackoffDelay(c, k % U32)
  {
    var before := EventlessRun(c, decode, k);
    var t := Run(c, decode, before).value;
    actions := NextConnects(c, decode, before, t, k);
    s := Connect(t, BackoffDelay(c, k % U32));
    assert s.attempts[..k] == t.attempts;
  }

  /** So the attempt after 2^32 eventless ones does not wait at all. */
  lemma WrapIsReached(c: Config, decode: seq<Byte> -> string) returns (actions: seq<Action>, s: State)
    requires c.maxAttempts.None?
    ensures Run(c, decode, actions) == Some(s) && |s.attempts| == U32 + 1
    ensures Streak(s.attempts[..U32]) == U32 && s.attempts[U32].wait == 0
    ensures c.initialBackoff > 0 && c.maxBackoff > 0 ==> s.attempts[U32].wait < Min(c.maxBackoff, Doubled(c, U32))
  {
    actions, s := EveryStreakIsReached(c, decode, U32);
    WrappedWait(c, U32);
  }
}
