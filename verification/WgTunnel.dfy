/** Who owns the wireguard-go children: fail-closed bring-up, and teardown on drop. */
module WgTunnel {
  import opened Wrappers

  /** How far a bring-up gets: the stage that fails, if one does. */
  datatype Stage = SpawnFails | NameFails | SocketFails | ConfigureFails | AddressFails | Works

  datatype WgError = Spawn | UapiTimeout | Configure | Network

  /**
   * Children are numbered as they are spawned. `guarded` are those of bring-ups
   * under way, `owned` those of existing tunnels, `exited` those that ended by
   * themselves, `kills` every kill in order.
   */
  datatype World = World(spawned: nat, live: set<nat>, exited: set<nat>, kills: seq<nat>,
                         guarded: set<nat>, owned: set<nat>)

  const EMPTY := World(0, {}, {}, [], {}, {})

  function AfterKill(w: World, child: nat): World {
    w.(live := w.live - {child}, kills := w.kills + [child])
  }

  /** A child that ends by itself stays with whoever holds it. */
  function AfterExit(w: World, child: nat): World {
    w.(live := w.live - {child}, exited := w.exited + {child})
  }

  function AfterSpawn(w: World): World {
    w.(spawned := w.spawned + 1, live := w.live + {w.spawned}, guarded := w.guarded + {w.spawned})
  }

  /** The end of a bring-up: the child goes to the tunnel, or is killed. */
  function AfterFinish(w: World, child: nat, stage: Stage): World {
    var released := w.(guarded := w.guarded - {child});
    if stage == Works then released.(owned := w.owned + {child}) else AfterKill(released, child)
  }

  /** A bring-up nothing else comes between; `dies` when its child ends by itself meanwhile. */
  function AfterBringUp(w: World, stage: Stage, dies: bool): World {
    if stage == SpawnFails then w
    else
      var started := AfterSpawn(w);
      AfterFinish(if dies then AfterExit(started, w.spawned) else started, w.spawned, stage)
  }

  function AfterDrop(w: World, child: nat): World {
    AfterKill(w.(owned := w.owned - {child}), child)
  }

  class Host {
    var spawned: nat
    var live: set<nat>
    var exited: set<nat>
    var kills: seq<nat>
    var guarded: set<nat>
    var owned: set<nat>

    ghost function View(): World
      reads this
    {
      World(spawned, live, exited, kills, guarded, owned)
    }

    constructor ()
      ensures View() == EMPTY
    {
      spawned, live, exited, kills, guarded, owned := 0, {}, {}, [], {}, {};
    }

    method SpawnChild() returns (guard: ChildGuard)
      modifies this
      ensures View() == AfterSpawn(old(View()))
      ensures fresh(guard) && guard.child == Some(old(spawned))
    {
      guard := new ChildGuard(spawned);
      live, guarded := live + {spawned}, guarded + {spawned};
      spawned := spawned + 1;
    }

    method ChildExits(child: nat)
      modifies this
      ensures View() == AfterExit(old(View()), child)
    {
      live, exited := live - {child}, exited + {child};
    }

    /** Kill and reap; killing a child that has already exited does nothing more. */
    method Kill(child: nat)
      modifies this
      ensures View() == AfterKill(old(View()), child)
    {
      live, kills := live - {child}, kills + [child];
    }

    /**
     * Every early return drops the guard, which kills the child; success disarms
     * it. The child may end by itself while the stages wait for it.
     */
    method BringUp(stage: Stage, dies: bool) returns (r: Result<nat, WgError>)
      modifies this
      ensures View() == AfterBringUp(old(View()), stage, dies)
      ensures stage == Works ==>
                && r == Ok(old(spawned)) && owned == old(owned) + {old(spawned)} && kills == old(kills)
                && (!dies ==> old(spawned) in live)
      ensures stage == SpawnFails ==> r == Err(Spawn) && kills == old(kills)
      ensures stage == NameFails || stage == SocketFails ==> r == Err(UapiTimeout)
      ensures stage == ConfigureFails ==> r == Err(Configure)
      ensures stage == AddressFails ==> r == Err(Network)
      ensures r.Err? && stage != SpawnFails ==> owned == old(owned) && kills == old(kills) + [old(spawned)]
    {
      if stage == SpawnFails {
        return Err(Spawn);
      }
      var guard := SpawnChild();
      if dies {
        ChildExits(guard.child.value);
      }
      if stage == NameFails {
        guard.Drop(this);
        return Err(UapiTimeout);
      }
      if stage == SocketFails {
        guard.Drop(this);
        return Err(UapiTimeout);
      }
      if stage == ConfigureFails {
        guard.Drop(this);
        return Err(Configure);
      }
      if stage == AddressFails {
        guard.Drop(this);
        return Err(Network);
      }
      var child := guard.Disarm(this);
      guard.Drop(this);
      owned := owned + {child};
      return Ok(child);
    }

    method DropTunnel(child: nat)
      modifies this
      ensures View() == AfterDrop(old(View()), child)
    {
      owned := owned - {child};
      Kill(child);
    }
  }

  class ChildGuard {
    var child: Option<nat>

    constructor (child: nat)
      ensures this.child == Some(child)
    {
      this.child := Some(child);
    }

    /** Takes the child out of the guard, which then has nothing to kill. */
    method Disarm(host: Host) returns (c: nat)
      requires child.Some?
      modifies this, host
      ensures c == old(child).value && child == None
      ensures host.View() == old(host.View()).(guarded := old(host.guarded) - {c})
    {
      c := child.value;
      child := None;
      host.guarded := host.guarded - {c};
    }

    method Drop(host: Host)
      modifies this, host
      ensures child == None
      ensures host.View() ==
              match old(child)
              case None => old(host.View())
              case Some(c) => AfterKill(old(host.View()).(guarded := old(host.guarded) - {c}), c)
    {
      if child.Some? {
        var c := Disarm(host);
        host.Kill(c);
      }
    }
  }

  // ---- every run ---------------------------------------------------------------

  /**
   * Bring-ups begin with a spawn and finish later, whatever happens in between;
   * a tunnel is dropped once, by whoever holds it; a child may end on its own at
   * any time, also while it is guarded.
   */
  datatype Event = Spawns | Finishes(child: nat, stage: Stage) | DropTunnel(child: nat) | Exits(child: nat)

  predicate Possible(w: World, e: Event) {
    match e
    case Spawns => true
    case Finishes(child, stage) => child in w.guarded && stage != SpawnFails
    case DropTunnel(child) => child in w.owned
    case Exits(child) => child in w.live
  }

  function After(w: World, e: Event): World {
    match e
    case Spawns => AfterSpawn(w)
    case Finishes(child, stage) => AfterFinish(w, child, stage)
    case DropTunnel(child) => AfterDrop(w, child)
    case Exits(child) => AfterExit(w, child)
  }

  function RunFrom(w: World, events: seq<Event>): Option<World>
    decreases |events|
  {
    if events == [] then Some(w)
    else
      match RunFrom(w, events[..|events| - 1])
      case None => None
      case Some(v) =>
        if Possible(v, events[|events| - 1]) then Some(After(v, events[|events| - 1])) else None
  }

  function Run(events: seq<Event>): Option<World> {
    RunFrom(EMPTY, events)
  }

  /** Every child a world knows of has been spawned. */
  ghost predicate AllSpawned(w: World) {
    forall p :: p in w.owned || p in w.guarded || p in w.exited || p in w.kills ==> p < w.spawned
  }

  ghost predicate FailClosed(w: World) {
    // The live children are those of tunnels and of bring-ups under way, but for self-ended ones.
    && w.live == (w.owned + w.guarded) - w.exited
    && AllSpawned(w) && w.owned !! w.guarded
    // Every child ever spawned is held by a tunnel or a bring-up, or has been killed: exactly one.
    && (forall p :: 0 <= p < w.spawned ==> (p in w.owned + w.guarded <==> p !in w.kills))
    // No child is killed twice.
    && (forall i, j :: 0 <= i < j < |w.kills| ==> w.kills[i] != w.kills[j])
  }

  lemma EventKeeps(w: World, e: Event)
    requires FailClosed(w) && Possible(w, e)
    ensures FailClosed(After(w, e))
    ensures e.Finishes? && e.stage != Works ==>
              After(w, e).owned == w.owned && After(w, e).live == w.live - {e.child}
  {
    var t := After(w, e);
    assert forall p :: p in w.owned + w.guarded ==> p < w.spawned && p !in w.kills;
    assert w.kills <= t.kills && |t.kills| <= |w.kills| + 1;
    assert forall p :: p in t.kills <==> p in w.kills || (|t.kills| > |w.kills| && p == t.kills[|w.kills|]);
  }

  lemma {:induction false} RunKeepsClosed(w: World, events: seq<Event>)
    requires FailClosed(w) && RunFrom(w, events).Some?
    ensures FailClosed(RunFrom(w, events).value)
    decreases |events|
  {
    if events != [] {
      var before := events[..|events| - 1];
      RunKeepsClosed(w, before);
      EventKeeps(RunFrom(w, before).value, events[|events| - 1]);
    }
  }

  /**
   * Over any bring-ups, failing at any stage and however they overlap, drops and
   * exits: the running children are those of existing tunnels and of bring-ups
   * under way (but for self-ended ones), nothing is leaked, and no child is
   * killed twice.
   */
  lemma EveryRunFailsClosed(events: seq<Event>)
    requires Run(events).Some?
    ensures FailClosed(Run(events).value)
  {
    RunKeepsClosed(EMPTY, events);
  }

  /** With no bring-up under way, the running children are exactly those of existing tunnels. */
  lemma OnlyTunnelsLive(events: seq<Event>)
    requires Run(events).Some? && Run(events).value.guarded == {}
    ensures Run(events).value.live == Run(events).value.owned - Run(events).value.exited
  {
    EveryRunFailsClosed(events);
    assert Run(events).value.owned + {} == Run(events).value.owned;
  }

  /** A finish that works kills nothing and hands exactly its child over. */
  lemma WorkingFinish(w: World, child: nat)
    requires FailClosed(w) && child in w.guarded
    ensures
      var t := AfterFinish(w, child, Works);
      && t.live == w.live && t.exited == w.exited && t.kills == w.kills && t.spawned == w.spawned
      && t.owned == w.owned + {child} && t.guarded == w.guarded - {child}
  {
  }

  /** A bring-up that works leaves its child running and owned, unless it died by itself. */
  lemma BringUpWorks(w: World, dies: bool)
    requires FailClosed(w)
    ensures
      var t := AfterBringUp(w, Works, dies);
      && t.owned == w.owned + {w.spawned} && t.kills == w.kills && t.guarded == w.guarded
      && t.live == if dies then w.live else w.live + {w.spawned}
  {
    assert w.spawned !in w.live && w.spawned !in w.guarded;
  }

  /** What kills a child: a finish that fails, or the drop of its tunnel. */
  predicate KillsChild(e: Event, p: nat) {
    match e
    case Finishes(child, stage) => child == p && stage != Works
    case DropTunnel(child) => child == p
    case _ => false
  }

  /** No child is killed but by its own failed bring-up or the drop of its own tunnel. */
  lemma {:induction false} KillsHaveCause(events: seq<Event>, p: nat)
    requires Run(events).Some? && p in Run(events).value.kills
    ensures exists i :: 0 <= i < |events| && KillsChild(events[i], p)
    decreases |events|
  {
    var k := |events| - 1;
    var before := Run(events[..k]).value;
    if p in before.kills {
      KillsHaveCause(events[..k], p);
      var i :| 0 <= i < k && KillsChild(events[..k][i], p);
      assert KillsChild(events[i], p);
    } else {
      assert KillsChild(events[k], p);
    }
  }

  /** And each of these does kill it. */
  lemma CauseKills(w: World, e: Event, p: nat)
    requires Possible(w, e) && KillsChild(e, p)
    ensures After(w, e).kills == w.kills + [p] && p !in After(w, e).live
  {
  }

  /** The steps of one bring-up, as events. */
  function BringUpEvents(w: World, stage: Stage, dies: bool): seq<Event> {
    if stage == SpawnFails then []
    else [Spawns] + (if dies then [Exits(w.spawned)] else []) + [Finishes(w.spawned, stage)]
  }

  lemma RunOne(w: World, events: seq<Event>, e: Event)
    requires RunFrom(w, events).Some? && Possible(RunFrom(w, events).value, e)
    ensures RunFrom(w, events + [e]) == Some(After(RunFrom(w, events).value, e))
  {
    assert (events + [e])[..|events|] == events;
  }

  /** A bring-up that nothing else comes between is a run of those events. */
  lemma BringUpIsRun(w: World, stage: Stage, dies: bool)
    ensures RunFrom(w, BringUpEvents(w, stage, dies)) == Some(AfterBringUp(w, stage, dies))
  {
    if stage != SpawnFails {
      RunOne(w, [], Spawns);
      assert [] + [Spawns] == [Spawns];
      if dies {
        RunOne(w, [Spawns], Exits(w.spawned));
        RunOne(w, [Spawns] + [Exits(w.spawned)], Finishes(w.spawned, stage));
      } else {
        assert [Spawns] + [] == [Spawns];
        RunOne(w, [Spawns], Finishes(w.spawned, stage));
      }
    }
  }

  /** A failed bring-up, dead child or not, leaves the running, the guarded and the owned children as they were. */
  lemma BringUpFailsClosed(w: World, stage: Stage, dies: bool)
    requires FailClosed(w)
    ensures
      var t := AfterBringUp(w, stage, dies);
      && FailClosed(t)
      && (stage != Works ==> t.live == w.live && t.guarded == w.guarded && t.owned == w.owned)
  {
    assert w.spawned !in w.live && w.spawned !in w.guarded;
    BringUpIsRun(w, stage, dies);
    RunKeepsClosed(w, BringUpEvents(w, stage, dies));
  }
}
