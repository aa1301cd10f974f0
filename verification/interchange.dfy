/** The hyperway interchange: pairs of lanes, the table that routes between them, and the tasks that relay. */
module InterchangeSpec {
  import opened Wrappers
  import opened Loc
  import opened Transforms
  import opened HyperlaneSpec

  /** A hyperway, the target the interchange was singular to when it was added, and how far its relay task has read. */
  datatype Way = Way(remote: Surface, agent: Agent, readdressing: seq<Transform>, singular: Option<Surface>,
                     inbound: Lane, outbound: Lane, taken: nat)
  {
    function Primers(): seq<Transform> {
      [FromTransform(remote), AgentTransform(agent)] + readdressing +
      if singular.Some? then [ToTransform(singular.value)] else []
    }
  }

  datatype Call =
    | Routed(wave: Wave) | Internal(way: nat)
    | Remove(remote: Surface) | Mount(remote: Surface, listener: ListenerId)

  datatype Interchange = Interchange(
    ways: seq<Way>, hyperways: map<Surface, nat>, calls: seq<Call>, singularTo: Option<Surface>,
    used: set<nat>, entered: map<nat, nat>, dropped: seq<Wave>)

  const EMPTY_INTERCHANGE := Interchange([], map[], [], None, {}, map[], [])

  datatype Move =
    | SetSingular(to: Surface)
    | Add(remote: Surface, agent: Agent, readdressing: seq<Transform>)
    | AskRemove(remote: Surface)
    | AskMount(remote: Surface, listener: ListenerId)
    | Enter(way: nat, wave: Wave)
    | RouteDirectly(wave: Wave)
    | Handle(timeout: bool)
    | InboundStep(way: nat, step: Step)
    | OutboundStep(way: nat, step: Step)
    | Relay(way: nat, timeout: bool)

  /** The call a lane receives when a call of the interchange is handled. */
  predicate Receptive(lane: Lane) {
    Enabled(lane, Accept(Drain))
  }

  /** A listener can be mailed to a lane that has room; mailing it to a lane whose task has panicked fails unnoticed. */
  predicate CanAttach(lane: Lane) {
    Receptive(lane) || lane.phase.Panicked?
  }

  function Attached(lane: Lane, listener: ListenerId): Lane
    requires CanAttach(lane)
  {
    if lane.phase.Panicked? then lane else Next(lane, Accept(Ext(listener)))
  }

  predicate CanHandle(s: Interchange, call: Call, timeout: bool) {
    match call
    case Internal(i) => i < |s.ways| && CanAttach(s.ways[i].inbound)
    case Remove(_) => true
    case Routed(wave) =>
      timeout || (wave.to.Single? && wave.to.surface in s.hyperways && s.hyperways[wave.to.surface] < |s.ways| ==>
                    Receptive(s.ways[s.hyperways[wave.to.surface]].outbound))
    case Mount(remote, _) =>
      remote in s.hyperways && s.hyperways[remote] < |s.ways| ==> CanAttach(s.ways[s.hyperways[remote]].outbound)
  }

  predicate Possible(s: Interchange, move: Move) {
    match move
    case SetSingular(_) => true
    case Add(_, _, readdressing) =>
      |readdressing| < MAILBOX - 3 && forall i | 0 <= i < |readdressing| :: Readdresses(readdressing[i])
    case AskRemove(_) => true
    case AskMount(_, _) => true
    case Enter(i, wave) => i < |s.ways| && wave.id !in s.used && Enabled(s.ways[i].inbound, Accept(WaveCall(wave)))
    case RouteDirectly(wave) => wave.id !in s.used
    case Handle(timeout) => s.calls != [] && CanHandle(s, s.calls[0], timeout)
    case InboundStep(i, step) => i < |s.ways| && !step.Accept? && Enabled(s.ways[i].inbound, step)
    case OutboundStep(i, step) => i < |s.ways| && !step.Accept? && Enabled(s.ways[i].outbound, step)
    case Relay(i, _) => i < |s.ways| && s.ways[i].taken < |s.ways[i].inbound.history.handed|
  }

  function WithInbound(s: Interchange, i: nat, lane: Lane): Interchange
    requires i < |s.ways|
  {
    s.(ways := s.ways[i := s.ways[i].(inbound := lane)])
  }

  function WithOutbound(s: Interchange, i: nat, lane: Lane): Interchange
    requires i < |s.ways|
  {
    s.(ways := s.ways[i := s.ways[i].(outbound := lane)])
  }

  /** A new hyperway: stamped, readdressed as asked and, if the interchange is singular, addressed to its one target. */
  function NewWay(s: Interchange, remote: Surface, agent: Agent, readdressing: seq<Transform>): Way {
    var way := Way(remote, agent, readdressing, s.singularTo, EMPTY, EMPTY, 0);
    way.(inbound := Primed(way.Primers()))
  }

  function Handled(s: Interchange, call: Call, timeout: bool): Interchange
    requires CanHandle(s, call, timeout)
  {
    match call
    case Internal(i) =>
      WithInbound(s, i, Attached(s.ways[i].inbound, 0)).(hyperways := s.hyperways[s.ways[i].remote := i])
    case Remove(remote) => s.(hyperways := s.hyperways - {remote})
    case Routed(wave) =>
      if wave.to.Single? && wave.to.surface in s.hyperways && s.hyperways[wave.to.surface] < |s.ways| && !timeout then
        var i := s.hyperways[wave.to.surface];
        WithOutbound(s, i, Next(s.ways[i].outbound, Accept(WaveCall(wave))))
      else s.(dropped := s.dropped + [wave])
    case Mount(remote, listener) =>
      if remote in s.hyperways && s.hyperways[remote] < |s.ways| then
        var i := s.hyperways[remote];
        WithOutbound(s, i, Attached(s.ways[i].outbound, listener))
      else s
  }

  function Moved(s: Interchange, move: Move): Interchange
    requires Possible(s, move)
  {
    match move
    case SetSingular(to) => s.(singularTo := Some(to))
    case Add(remote, agent, readdressing) =>
      s.(ways := s.ways + [NewWay(s, remote, agent, readdressing)], calls := s.calls + [Internal(|s.ways|)])
    case AskRemove(remote) => s.(calls := s.calls + [Remove(remote)])
    case AskMount(remote, listener) => s.(calls := s.calls + [Mount(remote, listener)])
    case Enter(i, wave) =>
      WithInbound(s, i, Next(s.ways[i].inbound, Accept(WaveCall(wave))))
      .(used := s.used + {wave.id}, entered := s.entered[wave.id := i])
    case RouteDirectly(wave) => s.(calls := s.calls + [Routed(wave)], used := s.used + {wave.id})
    case Handle(timeout) => Handled(s.(calls := s.calls[1..]), s.calls[0], timeout)
    case InboundStep(i, step) => WithInbound(s, i, Next(s.ways[i].inbound, step))
    case OutboundStep(i, step) => WithOutbound(s, i, Next(s.ways[i].outbound, step))
    case Relay(i, timeout) =>
      var wave := s.ways[i].inbound.history.handed[s.ways[i].taken].wave;
      s.(ways := s.ways[i := s.ways[i].(taken := s.ways[i].taken + 1)],
         calls := if timeout then s.calls else s.calls + [Routed(wave)],
         dropped := if timeout then s.dropped + [wave] else s.dropped)
  }

  function Play(s: Interchange, moves: seq<Move>): Option<Interchange> {
    if moves == [] then Some(s)
    else
      match Play(s, moves[..|moves| - 1])
      case None => None
      case Some(t) => if Possible(t, moves[|moves| - 1]) then Some(Moved(t, moves[|moves| - 1])) else None
  }

  // ------------------------------------------------------------------ the invariant

  /** Only the priming transforms are ever in the lane. */
  ghost predicate Settled(lane: Lane, primers: seq<Transform>) {
    && Traced(lane, primers)
    && |lane.transforms| <= |primers|
    && forall i | |primers| - |lane.transforms| <= i < |lane.mailbox| :: !lane.mailbox[i].TransformCall?
  }

  lemma SettledStep(lane: Lane, primers: seq<Transform>, step: Step)
    requires Settled(lane, primers) && Enabled(lane, step)
    requires step.Accept? ==> !step.call.TransformCall?
    ensures Settled(Next(lane, step), primers)
  {
    StepTraces(lane, step, primers);
    var next := Next(lane, step);
    if step.Receive? {
      assert forall i | 0 <= i < |next.mailbox| :: next.mailbox[i] == lane.mailbox[i + 1];
    }
  }

  /** What a settled lane has handed out is some accepted wave, put once through exactly the primers. */
  lemma SettledHanded(lane: Lane, primers: seq<Transform>, i: nat) returns (j: nat)
    requires Settled(lane, primers) && i < |lane.history.handed|
    ensures j < |lane.history.accepted|
    ensures FilterAll(primers, lane.history.accepted[j]) == Some(lane.history.handed[i].wave)
  {
    assert Derives(lane, lane.history.handed[i].wave, |primers|);
    var k, n :| && 0 <= k < |lane.history.accepted| && |primers| <= n <= |lane.transforms|
                && FilterAll(lane.transforms[..n], lane.history.accepted[k]) == Some(lane.history.handed[i].wave);
    assert lane.transforms[..n] == primers;
    j := k;
  }

  ghost predicate StampedBy(way: Way, wave: Wave) {
    && wave.from == way.remote
    && wave.agent == way.agent
    && (way.singular.Some? ==> wave.to == Single(way.singular.value))
  }

  lemma PrimersStamp(way: Way, original: Wave, wave: Wave)
    requires forall i | 0 <= i < |way.readdressing| :: Readdresses(way.readdressing[i])
    requires FilterAll(way.Primers(), original) == Some(wave)
    ensures StampedBy(way, wave)
  {
    var primers := way.Primers();
    assert primers[2..] == way.readdressing + if way.singular.Some? then [ToTransform(way.singular.value)] else [];
    StampedByList(primers, way.remote, way.agent, original);
  }

  /** What entered through a way under this id, put once through the way's primers. */
  ghost predicate CameThrough(way: Way, wave: Wave) {
    exists k :: && 0 <= k < |way.inbound.history.accepted| && way.inbound.history.accepted[k].id == wave.id
                && FilterAll(way.Primers(), way.inbound.history.accepted[k]) == Some(wave)
  }

  /** A wave whose id entered through some way is what that way made of it. */
  ghost predicate Marked(s: Interchange, wave: Wave) {
    && wave.id in s.used
    && (wave.id in s.entered ==> s.entered[wave.id] < |s.ways| && CameThrough(s.ways[s.entered[wave.id]], wave))
  }

  ghost predicate WayOk(s: Interchange, i: nat)
    requires i < |s.ways|
  {
    var way := s.ways[i];
    && (forall k | 0 <= k < |way.readdressing| :: Readdresses(way.readdressing[k]))
    && Settled(way.inbound, way.Primers())
    && Settled(way.outbound, [])
    && (forall k | 0 <= k < |way.inbound.history.accepted| ::
          var id := way.inbound.history.accepted[k].id; id in s.used && id in s.entered && s.entered[id] == i)
    && (forall k | 0 <= k < |way.outbound.history.accepted| ::
          var wave := way.outbound.history.accepted[k]; Marked(s, wave) && wave.to == Single(way.remote))
  }

  ghost predicate Ok(s: Interchange) {
    && (forall i | 0 <= i < |s.ways| :: WayOk(s, i))
    && (forall i | 0 <= i < |s.calls| && s.calls[i].Routed? :: Marked(s, s.calls[i].wave))
    && (forall remote | remote in s.hyperways ::
          s.hyperways[remote] < |s.ways| && s.ways[s.hyperways[remote]].remote == remote)
    && (forall id | id in s.entered :: id in s.used)
  }

  /** Nothing but lanes and reading positions ever changes in a way, and what a lane has accepted it has accepted. */
  ghost predicate Keeps(s: Interchange, t: Interchange) {
    && |s.ways| <= |t.ways|
    && (forall i | 0 <= i < |s.ways| ::
          s.ways[i].(inbound := EMPTY, outbound := EMPTY, taken := 0) ==
          t.ways[i].(inbound := EMPTY, outbound := EMPTY, taken := 0))
    && (forall i | 0 <= i < |s.ways| :: s.ways[i].inbound.history.accepted <= t.ways[i].inbound.history.accepted)
    && s.used <= t.used
    && (forall id | id in s.used && id in t.entered :: id in s.entered)
    && (forall id | id in s.entered :: id in t.entered && t.entered[id] == s.entered[id])
  }

  lemma MarkedStays(s: Interchange, t: Interchange, wave: Wave)
    requires Marked(s, wave) && Keeps(s, t)
    ensures Marked(t, wave)
  {
    if wave.id in t.entered {
      var i := s.entered[wave.id];
      var before, after := s.ways[i], t.ways[i];
      var k :| && 0 <= k < |before.inbound.history.accepted| && before.inbound.history.accepted[k].id == wave.id
               && FilterAll(before.Primers(), before.inbound.history.accepted[k]) == Some(wave);
      assert after.inbound.history.accepted[k] == before.inbound.history.accepted[k];
      assert after.Primers() == before.Primers();
    }
  }

  lemma WayStays(s: Interchange, t: Interchange, i: nat)
    requires i < |s.ways| && WayOk(s, i) && Keeps(s, t) && (forall id | id in s.entered :: id in s.used)
    requires t.ways[i].inbound == s.ways[i].inbound && t.ways[i].outbound == s.ways[i].outbound
    ensures WayOk(t, i)
  {
    forall wave | Marked(s, wave)
      ensures Marked(t, wave)
    {
      MarkedStays(s, t, wave);
    }
  }

  lemma InboundStays(s: Interchange, t: Interchange, i: nat, step: Step)
    requires Ok(s) && i < |s.ways| && Keeps(s, t) && Enabled(s.ways[i].inbound, step)
    requires step.Accept? ==> !step.call.TransformCall?
    requires step.Accept? && step.call.WaveCall? ==>
               step.call.wave.id in t.used && step.call.wave.id in t.entered && t.entered[step.call.wave.id] == i
    requires t.ways[i].inbound == Next(s.ways[i].inbound, step) && t.ways[i].outbound == s.ways[i].outbound
    ensures WayOk(t, i)
  {
    assert WayOk(s, i);
    SettledStep(s.ways[i].inbound, s.ways[i].Primers(), step);
    assert t.ways[i].Primers() == s.ways[i].Primers();
    AcceptedGrows(s.ways[i].inbound, step);
    forall wave | Marked(s, wave)
      ensures Marked(t, wave)
    {
      MarkedStays(s, t, wave);
    }
  }

  lemma OutboundStays(s: Interchange, t: Interchange, i: nat, step: Step)
    requires Ok(s) && i < |s.ways| && Keeps(s, t) && Enabled(s.ways[i].outbound, step)
    requires step.Accept? ==> !step.call.TransformCall?
    requires step.Accept? && step.call.WaveCall? ==>
               Marked(s, step.call.wave) && step.call.wave.to == Single(s.ways[i].remote)
    requires t.ways[i].outbound == Next(s.ways[i].outbound, step) && t.ways[i].inbound == s.ways[i].inbound
    ensures WayOk(t, i)
  {
    assert WayOk(s, i);
    SettledStep(s.ways[i].outbound, [], step);
    AcceptedGrows(s.ways[i].outbound, step);
    forall wave | Marked(s, wave)
      ensures Marked(t, wave)
    {
      MarkedStays(s, t, wave);
    }
  }

  lemma AcceptedGrows(lane: Lane, step: Step)
    requires Enabled(lane, step)
    ensures Next(lane, step).history.accepted ==
            lane.history.accepted + if step.Accept? && step.call.WaveCall? then [step.call.wave] else []
  {
  }

  lemma RestStays(s: Interchange, t: Interchange, except: nat)
    requires Ok(s) && Keeps(s, t)
    requires forall i | 0 <= i < |s.ways| && i != except ::
               t.ways[i].inbound == s.ways[i].inbound && t.ways[i].outbound == s.ways[i].outbound
    ensures forall i | 0 <= i < |s.ways| && i != except :: WayOk(t, i)
    ensures forall i | 0 <= i < |s.calls| && s.calls[i].Routed? :: Marked(t, s.calls[i].wave)
  {
    forall i | 0 <= i < |s.ways| && i != except
      ensures WayOk(t, i)
    {
      WayStays(s, t, i);
    }
    forall i | 0 <= i < |s.calls| && s.calls[i].Routed?
      ensures Marked(t, s.calls[i].wave)
    {
      MarkedStays(s, t, s.calls[i].wave);
    }
  }

  lemma NewWayOk(s: Interchange, move: Move)
    requires Ok(s) && move.Add? && Possible(s, move)
    ensures Ok(Moved(s, move))
  {
    var t := Moved(s, move);
    var way := t.ways[|s.ways|];
    RestStays(s, t, |s.ways|);
    assert Traced(way.inbound, way.Primers());
    assert Traced(EMPTY, []);
    assert WayOk(t, |s.ways|);
  }

  lemma RelayOk(s: Interchange, move: Move)
    requires Ok(s) && move.Relay? && Possible(s, move)
    ensures Ok(Moved(s, move))
  {
    var t, way := Moved(s, move), s.ways[move.way];
    RestStays(s, t, |s.ways|);
    var wave := way.inbound.history.handed[way.taken].wave;
    assert WayOk(s, move.way);
    var j := SettledHanded(way.inbound, way.Primers(), way.taken);
    assert wave.id == way.inbound.history.accepted[j].id;
    assert CameThrough(way, wave);
    assert Marked(s, wave);
    MarkedStays(s, t, wave);
  }

  /** A call handled without touching a lane. */
  lemma NoLaneOk(s: Interchange, t: Interchange)
    requires Ok(s) && s.calls != [] && t.calls == s.calls[1..] && t.ways == s.ways
    requires t.used == s.used && t.entered == s.entered
    requires forall remote | remote in t.hyperways ::
               t.hyperways[remote] < |t.ways| && t.ways[t.hyperways[remote]].remote == remote
    ensures Ok(t)
  {
    RestStays(s, t, |s.ways|);
    assert forall i | 0 <= i < |t.calls| :: t.calls[i] == s.calls[i + 1];
  }

  lemma RoutedOk(s: Interchange, wave: Wave, timeout: bool)
    requires Ok(s) && Possible(s, Handle(timeout)) && s.calls[0] == Routed(wave)
    ensures Ok(Moved(s, Handle(timeout)))
  {
    if wave.to.Single? && wave.to.surface in s.hyperways && !timeout {
      HandedOn(s, Moved(s, Handle(timeout)), s.hyperways[wave.to.surface], WaveCall(wave));
    } else {
      NoLaneOk(s, Moved(s, Handle(timeout)));
    }
  }

  lemma MountOk(s: Interchange, remote: Surface, listener: ListenerId, timeout: bool)
    requires Ok(s) && Possible(s, Handle(timeout)) && s.calls[0] == Mount(remote, listener)
    ensures Ok(Moved(s, Handle(timeout)))
  {
    if remote in s.hyperways && !s.ways[s.hyperways[remote]].outbound.phase.Panicked? {
      HandedOn(s, Moved(s, Handle(timeout)), s.hyperways[remote], Ext(listener));
    } else {
      NoLaneOk(s, Moved(s, Handle(timeout)));
    }
  }

  lemma HandleOk(s: Interchange, timeout: bool)
    requires Ok(s) && Possible(s, Handle(timeout))
    ensures Ok(Moved(s, Handle(timeout)))
  {
    match s.calls[0]
    case Internal(i) => InternalOk(s, Moved(s, Handle(false)), i);
    case Remove(_) => NoLaneOk(s, Moved(s, Handle(timeout)));
    case Routed(wave) => RoutedOk(s, wave, timeout);
    case Mount(remote, listener) => MountOk(s, remote, listener, timeout);
  }

  lemma InternalOk(s: Interchange, t: Interchange, i: nat)
    requires Ok(s) && s.calls != [] && s.calls[0] == Internal(i) && Possible(s, Handle(false))
    requires t == Moved(s, Handle(false))
    ensures Ok(t)
  {
    if s.ways[i].inbound.phase.Panicked? {
      NoLaneOk(s, t);
    } else {
      ListenedTo(s, t, i);
    }
  }

  lemma ListenedTo(s: Interchange, t: Interchange, i: nat)
    requires Ok(s) && s.calls != [] && s.calls[0] == Internal(i) && Possible(s, Handle(false))
    requires t == Moved(s, Handle(false)) && !s.ways[i].inbound.phase.Panicked?
    ensures Ok(t)
  {
    RestStays(s, t, i);
    InboundStays(s, t, i, Accept(Ext(0)));
    assert forall k | 0 <= k < |t.calls| :: t.calls[k] == s.calls[k + 1];
  }

  /** A call passed on to the outbound lane of a registered hyperway. */
  lemma HandedOn(s: Interchange, t: Interchange, i: nat, call: HyperlaneSpec.Call)
    requires Ok(s) && s.calls != [] && i < |s.ways| && Enabled(s.ways[i].outbound, Accept(call))
    requires !call.TransformCall?
    requires call.WaveCall? ==> Marked(s, call.wave) && call.wave.to == Single(s.ways[i].remote)
    requires t == WithOutbound(s.(calls := s.calls[1..]), i, Next(s.ways[i].outbound, Accept(call)))
    ensures Ok(t)
  {
    RestStays(s, t, i);
    OutboundStays(s, t, i, Accept(call));
    assert forall k | 0 <= k < |t.calls| :: t.calls[k] == s.calls[k + 1];
  }

  lemma EnterOk(s: Interchange, move: Move)
    requires Ok(s) && move.Enter? && Possible(s, move)
    ensures Ok(Moved(s, move))
  {
    RestStays(s, Moved(s, move), move.way);
    InboundStays(s, Moved(s, move), move.way, Accept(WaveCall(move.wave)));
  }

  lemma LaneStepOk(s: Interchange, move: Move)
    requires Ok(s) && (move.InboundStep? || move.OutboundStep?) && Possible(s, move)
    ensures Ok(Moved(s, move))
  {
    RestStays(s, Moved(s, move), move.way);
    if move.InboundStep? {
      InboundStays(s, Moved(s, move), move.way, move.step);
    } else {
      OutboundStays(s, Moved(s, move), move.way, move.step);
    }
  }

  /** The moves that touch no lane. */
  lemma AskOk(s: Interchange, move: Move)
    requires Ok(s) && (move.SetSingular? || move.AskRemove? || move.AskMount? || move.RouteDirectly?)
             && Possible(s, move)
    ensures Ok(Moved(s, move))
  {
    RestStays(s, Moved(s, move), |s.ways|);
  }

  /** Every move keeps the invariant. */
  lemma MoveOk(s: Interchange, move: Move)
    requires Ok(s) && Possible(s, move)
    ensures Ok(Moved(s, move))
  {
    match move
    case Add(_, _, _) => NewWayOk(s, move);
    case Handle(timeout) => HandleOk(s, timeout);
    case Relay(_, _) => RelayOk(s, move);
    case Enter(_, _) => EnterOk(s, move);
    case InboundStep(_, _) => LaneStepOk(s, move);
    case OutboundStep(_, _) => LaneStepOk(s, move);
    case _ => AskOk(s, move);
  }

  lemma FewerCallsOk(s: Interchange)
    requires Ok(s) && s.calls != []
    ensures Ok(s.(calls := s.calls[1..]))
  {
    var t := s.(calls := s.calls[1..]);
    forall i | 0 <= i < |t.ways|
      ensures WayOk(t, i)
    {
      WayStays(s, t, i);
    }
    assert forall i | 0 <= i < |t.calls| :: t.calls[i] == s.calls[i + 1];
  }

  lemma {:induction false} PlayOk(moves: seq<Move>)
    requires Play(EMPTY_INTERCHANGE, moves).Some?
    ensures Ok(Play(EMPTY_INTERCHANGE, moves).value)
  {
    if moves != [] {
      PlayOk(moves[..|moves| - 1]);
      MoveOk(Play(EMPTY_INTERCHANGE, moves[..|moves| - 1]).value, moves[|moves| - 1]);
    }
  }

  /**
   * End to end, over every run: a wave leaves only through the lane of the surface it is addressed to; if it had
   * entered through a remote's inbound lane it is what entered there, put once through that lane's primers, and so
   * carries that remote as sender and the agent fixed for its hyperway; and if that hyperway was added to a singular
   * interchange, the lane it leaves through is the singular one.
   */
  lemma EndToEnd(moves: seq<Move>, out: nat, i: nat)
    requires Play(EMPTY_INTERCHANGE, moves).Some?
    requires out < |Play(EMPTY_INTERCHANGE, moves).value.ways|
    requires i < |Play(EMPTY_INTERCHANGE, moves).value.ways[out].outbound.history.handed|
    ensures var s := Play(EMPTY_INTERCHANGE, moves).value;
            var wave := s.ways[out].outbound.history.handed[i].wave;
            && wave.to == Single(s.ways[out].remote)
            && (wave.id in s.entered ==>
                  var through := s.entered[wave.id];
                  && through < |s.ways|
                  && CameThrough(s.ways[through], wave)
                  && wave.from == s.ways[through].remote
                  && wave.agent == s.ways[through].agent
                  && (s.ways[through].singular.Some? ==> s.ways[out].remote == s.ways[through].singular.value))
  {
    PlayOk(moves);
    var s := Play(EMPTY_INTERCHANGE, moves).value;
    assert WayOk(s, out);
    var j := SettledHanded(s.ways[out].outbound, [], i);
    var wave := s.ways[out].outbound.history.accepted[j];
    assert Marked(s, wave);
    if wave.id in s.entered {
      CameThroughIsStamped(s, s.entered[wave.id], wave);
    }
  }

  lemma CameThroughIsStamped(s: Interchange, i: nat, wave: Wave)
    requires Ok(s) && i < |s.ways| && CameThrough(s.ways[i], wave)
    ensures StampedBy(s.ways[i], wave)
  {
    assert WayOk(s, i);
    var k :| && 0 <= k < |s.ways[i].inbound.history.accepted|
             && FilterAll(s.ways[i].Primers(), s.ways[i].inbound.history.accepted[k]) == Some(wave);
    PrimersStamp(s.ways[i], s.ways[i].inbound.history.accepted[k], wave);
  }
}
