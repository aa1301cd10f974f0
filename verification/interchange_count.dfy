/**
 * Conservation across a whole interchange: what has come in is always in exactly one place, and leaves at most once.
 */
module InterchangeConservation {
  import opened Wrappers
  import opened Loc
  import opened Transforms
  import opened HyperlaneSpec
  import opened InterchangeSpec

  // ------------------------------------------------------------------ what a way contributes

  /** How often an id has been handed to the relay task of a way and read by it. */
  function Read(way: Way, id: nat): nat
    requires way.taken <= |way.inbound.history.handed|
  {
    Count(HandedWaves(way.inbound.history.handed[..way.taken]), id)
  }

  /** Handed to the relay task of a way and not read yet. */
  function Unread(way: Way, id: nat): nat
    requires way.taken <= |way.inbound.history.handed|
  {
    Count(HandedWaves(way.inbound.history.handed[way.taken..]), id)
  }

  function HandedOut(lane: Lane, id: nat): nat {
    Count(HandedWaves(lane.history.handed), id)
  }

  /**
   * In one of the places of the inbound lane, on its way to the relay task, or in one of the places of the outbound
   * lane.
   */
  function InWay(way: Way, id: nat): nat
    requires way.taken <= |way.inbound.history.handed|
  {
    Everywhere(way.inbound, id) - HandedOut(way.inbound, id) + Unread(way, id) + Everywhere(way.outbound, id)
  }

  ghost predicate WayConserves(way: Way, id: nat) {
    && way.taken <= |way.inbound.history.handed|
    && Everywhere(way.inbound, id) == Count(way.inbound.history.accepted, id)
    && Everywhere(way.outbound, id) == Count(way.outbound.history.accepted, id)
  }

  ghost predicate WaysConserve(ways: seq<Way>, id: nat) {
    forall i | 0 <= i < |ways| :: WayConserves(ways[i], id)
  }

  /** What was accepted and not passed on by the relay is still in the way. */
  lemma InWayIsAccepted(way: Way, id: nat)
    requires WayConserves(way, id)
    ensures InWay(way, id) ==
            Count(way.inbound.history.accepted, id) - Read(way, id) + Count(way.outbound.history.accepted, id)
  {
    var handed := way.inbound.history.handed;
    assert HandedWaves(handed) == HandedWaves(handed[..way.taken]) + HandedWaves(handed[way.taken..]);
    CountConcat(HandedWaves(handed[..way.taken]), HandedWaves(handed[way.taken..]), id);
  }

  function Sum(amounts: seq<nat>): nat {
    if amounts == [] then 0 else Sum(amounts[..|amounts| - 1]) + amounts[|amounts| - 1]
  }

  lemma {:induction false} SumUpdate(amounts: seq<nat>, i: nat, amount: nat)
    requires i < |amounts|
    ensures Sum(amounts[i := amount]) == Sum(amounts) - amounts[i] + amount
  {
    var n := |amounts| - 1;
    if i == n {
      assert amounts[i := amount][..n] == amounts[..n];
    } else {
      SumUpdate(amounts[..n], i, amount);
      assert amounts[i := amount][..n] == amounts[..n][i := amount];
    }
  }

  lemma {:induction false} SumAtLeast(amounts: seq<nat>, i: nat, j: nat)
    requires i < |amounts| && j < |amounts|
    ensures Sum(amounts) >= amounts[i]
    ensures i != j ==> Sum(amounts) >= amounts[i] + amounts[j]
  {
    var n := |amounts| - 1;
    if i < n || j < n {
      SumAtLeast(amounts[..n], if i < n then i else j, if j < n then j else i);
    }
  }

  function Amounts(ways: seq<Way>, id: nat): (amounts: seq<nat>)
    requires forall i | 0 <= i < |ways| :: ways[i].taken <= |ways[i].inbound.history.handed|
    ensures |amounts| == |ways| && forall i | 0 <= i < |ways| :: amounts[i] == InWay(ways[i], id)
  {
    seq(|ways|, i requires 0 <= i < |ways| => InWay(ways[i], id))
  }

  function InWays(ways: seq<Way>, id: nat): nat
    requires forall i | 0 <= i < |ways| :: ways[i].taken <= |ways[i].inbound.history.handed|
  {
    Sum(Amounts(ways, id))
  }

  function RoutedWaves(calls: seq<InterchangeSpec.Call>): seq<Wave> {
    if calls == [] then []
    else (if calls[0].Routed? then [calls[0].wave] else []) + RoutedWaves(calls[1..])
  }

  lemma {:induction false} RoutedConcat(a: seq<InterchangeSpec.Call>, b: seq<InterchangeSpec.Call>)
    ensures RoutedWaves(a + b) == RoutedWaves(a) + RoutedWaves(b)
  {
    if a == [] {
      assert a + b == b;
    } else {
      var first := if a[0].Routed? then [a[0].wave] else [];
      RoutedConcat(a[1..], b);
      assert (a + b)[0] == a[0] && (a + b)[1..] == a[1..] + b;
      assert RoutedWaves(a + b) == first + (RoutedWaves(a[1..]) + RoutedWaves(b));
    }
  }

  /** The waves on their way between two ways, and those dropped there. */
  function Between(calls: seq<InterchangeSpec.Call>, dropped: seq<Wave>, id: nat): nat {
    Count(RoutedWaves(calls), id) + Count(dropped, id)
  }

  function Weight(call: InterchangeSpec.Call, id: nat): nat {
    if call.Routed? && call.wave.id == id then 1 else 0
  }

  lemma OneCall(call: InterchangeSpec.Call, id: nat)
    ensures Count(RoutedWaves([call]), id) == Weight(call, id)
  {
    assert [call][1..] == [];
    if call.Routed? {
      assert RoutedWaves([call]) == [call.wave];
      CountOne(call.wave, id);
    }
  }

  lemma RoutedCounts(calls: seq<InterchangeSpec.Call>, call: InterchangeSpec.Call, dropped: seq<Wave>, id: nat)
    ensures Between(calls + [call], dropped, id) == Between(calls, dropped, id) + Weight(call, id)
  {
    RoutedConcat(calls, [call]);
    CountConcat(RoutedWaves(calls), RoutedWaves([call]), id);
    OneCall(call, id);
  }

  lemma DroppedCounts(calls: seq<InterchangeSpec.Call>, dropped: seq<Wave>, wave: Wave, id: nat)
    ensures Between(calls, dropped + [wave], id) == Between(calls, dropped, id) + if wave.id == id then 1 else 0
  {
    CountConcat(dropped, [wave], id);
    CountOne(wave, id);
  }

  lemma TakenCounts(calls: seq<InterchangeSpec.Call>, dropped: seq<Wave>, id: nat)
    requires calls != []
    ensures Between(calls, dropped, id) == Between(calls[1..], dropped, id) + Weight(calls[0], id)
  {
    assert calls == [calls[0]] + calls[1..];
    RoutedConcat([calls[0]], calls[1..]);
    CountConcat(RoutedWaves([calls[0]]), RoutedWaves(calls[1..]), id);
    OneCall(calls[0], id);
  }

  // ------------------------------------------------------------------ the whole interchange

  /** How often an id is in some way, between two ways, or dropped as unroutable or too late. */
  function Whereabouts(ways: seq<Way>, calls: seq<InterchangeSpec.Call>, dropped: seq<Wave>, id: nat): nat
    requires forall i | 0 <= i < |ways| :: ways[i].taken <= |ways[i].inbound.history.handed|
  {
    InWays(ways, id) + Between(calls, dropped, id)
  }

  /** Everything is somewhere just once if it has come in, and nowhere if it has not. */
  ghost predicate Conserved(ways: seq<Way>, calls: seq<InterchangeSpec.Call>, dropped: seq<Wave>, used: set<nat>,
                            id: nat) {
    WaysConserve(ways, id) && Whereabouts(ways, calls, dropped, id) == if id in used then 1 else 0
  }

  ghost predicate Conserves(s: Interchange, id: nat) {
    Conserved(s.ways, s.calls, s.dropped, s.used, id)
  }

  /** What a way has taken in, less what its relay has passed on. */
  function Net(way: Way, id: nat): int
    requires way.taken <= |way.inbound.history.handed|
  {
    Count(way.inbound.history.accepted, id) - Read(way, id) + Count(way.outbound.history.accepted, id)
  }

  /** Changing one way changes the sum by what that way gains or loses. */
  lemma OneWayChanges(ways: seq<Way>, i: nat, way: Way, id: nat)
    requires WaysConserve(ways, id) && i < |ways| && WayConserves(way, id)
    ensures WaysConserve(ways[i := way], id)
    ensures InWays(ways[i := way], id) == InWays(ways, id) - Net(ways[i], id) + Net(way, id)
  {
    assert Amounts(ways[i := way], id) == Amounts(ways, id)[i := InWay(way, id)];
    SumUpdate(Amounts(ways, id), i, InWay(way, id));
    InWayIsAccepted(ways[i], id);
    InWayIsAccepted(way, id);
  }

  lemma InboundConserves(way: Way, step: Step, id: nat)
    requires WayConserves(way, id) && HyperlaneSpec.Enabled(way.inbound, step)
    ensures WayConserves(way.(inbound := Next(way.inbound, step)), id)
    ensures Net(way.(inbound := Next(way.inbound, step)), id) ==
            Net(way, id) + if step.Accept? && step.call.WaveCall? && step.call.wave.id == id then 1 else 0
  {
    var next := Next(way.inbound, step);
    StepConserves(way.inbound, step, id);
    AcceptedCount(way.inbound, step, id);
    HandedGrows(way.inbound, step);
    assert next.history.handed[..way.taken] == way.inbound.history.handed[..way.taken];
  }

  lemma OutboundConserves(way: Way, step: Step, id: nat)
    requires WayConserves(way, id) && HyperlaneSpec.Enabled(way.outbound, step)
    ensures WayConserves(way.(outbound := Next(way.outbound, step)), id)
    ensures Net(way.(outbound := Next(way.outbound, step)), id) ==
            Net(way, id) + if step.Accept? && step.call.WaveCall? && step.call.wave.id == id then 1 else 0
  {
    StepConserves(way.outbound, step, id);
    AcceptedCount(way.outbound, step, id);
  }

  lemma AcceptedCount(lane: Lane, step: Step, id: nat)
    requires HyperlaneSpec.Enabled(lane, step)
    ensures Count(Next(lane, step).history.accepted, id) ==
            Count(lane.history.accepted, id)
            + if step.Accept? && step.call.WaveCall? && step.call.wave.id == id then 1 else 0
  {
    if step.Accept? && step.call.WaveCall? {
      CountConcat(lane.history.accepted, [step.call.wave], id);
      CountOne(step.call.wave, id);
    } else if !step.Accept? {
      OnlyAcceptAccepts(lane, step);
    }
  }

  lemma HandedGrows(lane: Lane, step: Step)
    requires HyperlaneSpec.Enabled(lane, step)
    ensures lane.history.handed <= Next(lane, step).history.handed
  {
  }

  lemma ReadingOn(way: Way, id: nat)
    requires WayConserves(way, id) && way.taken < |way.inbound.history.handed|
    ensures WayConserves(way.(taken := way.taken + 1), id)
    ensures Net(way.(taken := way.taken + 1), id) ==
            Net(way, id) - if way.inbound.history.handed[way.taken].wave.id == id then 1 else 0
  {
    var handed, n := way.inbound.history.handed, way.taken;
    assert handed[..n + 1] == handed[..n] + [handed[n]];
    HandedConcat(handed[..n], handed[n]);
    CountConcat(HandedWaves(handed[..n]), [handed[n].wave], id);
    CountOne(handed[n].wave, id);
  }

  // ------------------------------------------------------------------ every move conserves

  lemma SumSnoc(amounts: seq<nat>, amount: nat)
    ensures Sum(amounts + [amount]) == Sum(amounts) + amount
  {
    assert (amounts + [amount])[..|amounts|] == amounts;
  }

  lemma ConserveSnoc(ways: seq<Way>, way: Way, id: nat)
    requires WaysConserve(ways, id) && WayConserves(way, id)
    ensures WaysConserve(ways + [way], id)
  {
    forall i | 0 <= i < |ways + [way]|
      ensures WayConserves((ways + [way])[i], id)
    {
      assert (ways + [way])[i] == if i < |ways| then ways[i] else way;
    }
  }

  lemma OneWayMore(ways: seq<Way>, way: Way, id: nat)
    requires WaysConserve(ways, id) && WayConserves(way, id)
    ensures WaysConserve(ways + [way], id) && InWays(ways + [way], id) == InWays(ways, id) + InWay(way, id)
  {
    ConserveSnoc(ways, way, id);
    SumSnoc(Amounts(ways, id), InWay(way, id));
    assert Amounts(ways + [way], id) == Amounts(ways, id) + [InWay(way, id)];
  }

  lemma AddConserves(ways: seq<Way>, calls: seq<InterchangeSpec.Call>, dropped: seq<Wave>, used: set<nat>, way: Way,
                     id: nat)
    requires Conserved(ways, calls, dropped, used, id) && WayConserves(way, id) && InWay(way, id) == 0
    ensures Conserved(ways + [way], calls + [Internal(|ways|)], dropped, used, id)
  {
    OneWayMore(ways, way, id);
    RoutedCounts(calls, Internal(|ways|), dropped, id);
  }

  lemma NewWayIsEmpty(s: Interchange, remote: Surface, agent: Agent, readdressing: seq<Transform>, id: nat)
    ensures WayConserves(NewWay(s, remote, agent, readdressing), id)
    ensures InWay(NewWay(s, remote, agent, readdressing), id) == 0
  {
    var mailbox := NewWay(s, remote, agent, readdressing).inbound.mailbox;
    NoWaves(mailbox);
  }

  lemma {:induction false} NoWaves(mailbox: seq<HyperlaneSpec.Call>)
    requires forall i | 0 <= i < |mailbox| :: !mailbox[i].WaveCall?
    ensures MailedWaves(mailbox) == []
  {
    if mailbox != [] {
      NoWaves(mailbox[1..]);
    }
  }

  function AcceptedNow(step: Step, id: nat): nat {
    if step.Accept? && step.call.WaveCall? && step.call.wave.id == id then 1 else 0
  }

  lemma InboundOfWays(ways: seq<Way>, i: nat, step: Step, id: nat)
    requires WaysConserve(ways, id) && i < |ways| && HyperlaneSpec.Enabled(ways[i].inbound, step)
    ensures var after := ways[i := ways[i].(inbound := Next(ways[i].inbound, step))];
            WaysConserve(after, id) && InWays(after, id) == InWays(ways, id) + AcceptedNow(step, id)
  {
    InboundConserves(ways[i], step, id);
    OneWayChanges(ways, i, ways[i].(inbound := Next(ways[i].inbound, step)), id);
  }

  lemma OutboundOfWays(ways: seq<Way>, i: nat, step: Step, id: nat)
    requires WaysConserve(ways, id) && i < |ways| && HyperlaneSpec.Enabled(ways[i].outbound, step)
    ensures var after := ways[i := ways[i].(outbound := Next(ways[i].outbound, step))];
            WaysConserve(after, id) && InWays(after, id) == InWays(ways, id) + AcceptedNow(step, id)
  {
    OutboundConserves(ways[i], step, id);
    OneWayChanges(ways, i, ways[i].(outbound := Next(ways[i].outbound, step)), id);
  }

  lemma EnterConserves(ways: seq<Way>, calls: seq<InterchangeSpec.Call>, dropped: seq<Wave>, used: set<nat>,
                       i: nat, wave: Wave, id: nat)
    requires Conserved(ways, calls, dropped, used, id) && i < |ways| && wave.id !in used
    requires HyperlaneSpec.Enabled(ways[i].inbound, Accept(WaveCall(wave)))
    ensures Conserved(ways[i := ways[i].(inbound := Next(ways[i].inbound, Accept(WaveCall(wave))))], calls, dropped,
                      used + {wave.id}, id)
  {
    InboundOfWays(ways, i, Accept(WaveCall(wave)), id);
  }

  lemma InboundStepConserves(ways: seq<Way>, calls: seq<InterchangeSpec.Call>, dropped: seq<Wave>, used: set<nat>,
                             i: nat, step: Step, id: nat)
    requires Conserved(ways, calls, dropped, used, id) && i < |ways|
    requires AcceptedNow(step, id) == 0 && HyperlaneSpec.Enabled(ways[i].inbound, step)
    ensures Conserved(ways[i := ways[i].(inbound := Next(ways[i].inbound, step))], calls, dropped, used, id)
  {
    InboundOfWays(ways, i, step, id);
  }

  lemma OutboundStepConserves(ways: seq<Way>, calls: seq<InterchangeSpec.Call>, dropped: seq<Wave>, used: set<nat>,
                              i: nat, step: Step, id: nat)
    requires Conserved(ways, calls, dropped, used, id) && i < |ways|
    requires AcceptedNow(step, id) == 0 && HyperlaneSpec.Enabled(ways[i].outbound, step)
    ensures Conserved(ways[i := ways[i].(outbound := Next(ways[i].outbound, step))], calls, dropped, used, id)
  {
    OutboundOfWays(ways, i, step, id);
  }

  /** The relay task passes a wave on to the interchange, or gives it up. */
  lemma RelayConserves(ways: seq<Way>, calls: seq<InterchangeSpec.Call>, dropped: seq<Wave>, used: set<nat>, i: nat,
                       id: nat)
    requires Conserved(ways, calls, dropped, used, id)
    requires i < |ways| && ways[i].taken < |ways[i].inbound.history.handed|
    ensures var wave := ways[i].inbound.history.handed[ways[i].taken].wave;
            var after := ways[i := ways[i].(taken := ways[i].taken + 1)];
            && Conserved(after, calls + [Routed(wave)], dropped, used, id)
            && Conserved(after, calls, dropped + [wave], used, id)
  {
    var wave := ways[i].inbound.history.handed[ways[i].taken].wave;
    ReadingOn(ways[i], id);
    OneWayChanges(ways, i, ways[i].(taken := ways[i].taken + 1), id);
    RoutedCounts(calls, Routed(wave), dropped, id);
    DroppedCounts(calls, dropped, wave, id);
  }

  /** A call that carries no wave is taken off. */
  lemma OtherTaken(ways: seq<Way>, calls: seq<InterchangeSpec.Call>, dropped: seq<Wave>, used: set<nat>, id: nat)
    requires Conserved(ways, calls, dropped, used, id) && calls != [] && !calls[0].Routed?
    ensures Conserved(ways, calls[1..], dropped, used, id)
  {
    TakenCounts(calls, dropped, id);
  }

  /** A wave that cannot be routed is given up. */
  lemma RoutedDropped(ways: seq<Way>, calls: seq<InterchangeSpec.Call>, dropped: seq<Wave>, used: set<nat>, id: nat)
    requires Conserved(ways, calls, dropped, used, id) && calls != [] && calls[0].Routed?
    ensures Conserved(ways, calls[1..], dropped + [calls[0].wave], used, id)
  {
    TakenCounts(calls, dropped, id);
    DroppedCounts(calls[1..], dropped, calls[0].wave, id);
  }

  /** A routed wave goes into one outbound lane. */
  lemma RoutedOn(ways: seq<Way>, calls: seq<InterchangeSpec.Call>, dropped: seq<Wave>, used: set<nat>, i: nat,
                 wave: Wave, id: nat)
    requires Conserved(ways, calls, dropped, used, id) && calls != [] && calls[0] == Routed(wave)
    requires i < |ways| && HyperlaneSpec.Enabled(ways[i].outbound, Accept(WaveCall(wave)))
    ensures Conserved(ways[i := ways[i].(outbound := Next(ways[i].outbound, Accept(WaveCall(wave))))],
                      calls[1..], dropped, used, id)
  {
    TakenCounts(calls, dropped, id);
    OutboundOfWays(ways, i, Accept(WaveCall(wave)), id);
  }

  /** Mailing a listener to a lane moves no wave. */
  lemma ListenInboundConserves(ways: seq<Way>, calls: seq<InterchangeSpec.Call>, dropped: seq<Wave>, used: set<nat>,
                               i: nat, listener: ListenerId, id: nat)
    requires Conserved(ways, calls, dropped, used, id) && i < |ways| && CanAttach(ways[i].inbound)
    ensures Conserved(ways[i := ways[i].(inbound := Attached(ways[i].inbound, listener))], calls, dropped, used, id)
  {
    if ways[i].inbound.phase.Panicked? {
      assert ways[i := ways[i].(inbound := Attached(ways[i].inbound, listener))] == ways;
    } else {
      InboundStepConserves(ways, calls, dropped, used, i, Accept(Ext(listener)), id);
    }
  }

  lemma ListenOutboundConserves(ways: seq<Way>, calls: seq<InterchangeSpec.Call>, dropped: seq<Wave>, used: set<nat>,
                                i: nat, listener: ListenerId, id: nat)
    requires Conserved(ways, calls, dropped, used, id) && i < |ways| && CanAttach(ways[i].outbound)
    ensures Conserved(ways[i := ways[i].(outbound := Attached(ways[i].outbound, listener))], calls, dropped, used, id)
  {
    if ways[i].outbound.phase.Panicked? {
      assert ways[i := ways[i].(outbound := Attached(ways[i].outbound, listener))] == ways;
    } else {
      OutboundStepConserves(ways, calls, dropped, used, i, Accept(Ext(listener)), id);
    }
  }

  lemma InternalConserves(s: Interchange, i: nat, timeout: bool, id: nat)
    requires Conserves(s, id) && CanHandle(s, Internal(i), timeout)
    ensures Conserves(Handled(s, Internal(i), timeout), id)
  {
    ListenInboundConserves(s.ways, s.calls, s.dropped, s.used, i, 0, id);
  }

  lemma MountConserves(s: Interchange, remote: Surface, listener: ListenerId, timeout: bool, id: nat)
    requires Conserves(s, id) && CanHandle(s, Mount(remote, listener), timeout)
    ensures Conserves(Handled(s, Mount(remote, listener), timeout), id)
  {
    if remote in s.hyperways && s.hyperways[remote] < |s.ways| {
      ListenOutboundConserves(s.ways, s.calls, s.dropped, s.used, s.hyperways[remote], listener, id);
    }
  }

  /** The way a wave is routed to, if it can be routed at all. */
  function RoutedTo(s: Interchange, wave: Wave, timeout: bool): Option<nat> {
    if wave.to.Single? && wave.to.surface in s.hyperways && s.hyperways[wave.to.surface] < |s.ways| && !timeout then
      Some(s.hyperways[wave.to.surface])
    else None
  }

  lemma RoutedConserves(s: Interchange, wave: Wave, timeout: bool, id: nat)
    requires Conserves(s, id) && s.calls != [] && s.calls[0] == Routed(wave) && CanHandle(s, Routed(wave), timeout)
    ensures Conserves(Handled(s.(calls := s.calls[1..]), Routed(wave), timeout), id)
  {
    match RoutedTo(s, wave, timeout)
    case Some(i) => RoutedOn(s.ways, s.calls, s.dropped, s.used, i, wave, id);
    case None => RoutedDropped(s.ways, s.calls, s.dropped, s.used, id);
  }

  lemma HandleConserves(s: Interchange, timeout: bool, id: nat)
    requires Conserves(s, id) && s.calls != [] && CanHandle(s, s.calls[0], timeout)
    ensures Conserves(Handled(s.(calls := s.calls[1..]), s.calls[0], timeout), id)
  {
    if s.calls[0].Routed? {
      RoutedConserves(s, s.calls[0].wave, timeout, id);
    } else {
      OtherTaken(s.ways, s.calls, s.dropped, s.used, id);
      match s.calls[0]
      case Internal(i) => InternalConserves(s.(calls := s.calls[1..]), i, timeout, id);
      case Remove(_) =>
      case Mount(remote, listener) => MountConserves(s.(calls := s.calls[1..]), remote, listener, timeout, id);
    }
  }

  lemma AskConserves(ways: seq<Way>, calls: seq<InterchangeSpec.Call>, dropped: seq<Wave>, used: set<nat>,
                     call: InterchangeSpec.Call, id: nat)
    requires Conserved(ways, calls, dropped, used, id)
    ensures !call.Routed? ==> Conserved(ways, calls + [call], dropped, used, id)
    ensures call.Routed? && call.wave.id !in used ==>
            Conserved(ways, calls + [call], dropped, used + {call.wave.id}, id)
  {
    RoutedCounts(calls, call, dropped, id);
  }

  /** The moves from outside. */
  lemma OutsideConserves(s: Interchange, move: Move, id: nat)
    requires Conserves(s, id) && InterchangeSpec.Possible(s, move)
    requires !move.Handle? && !move.InboundStep? && !move.OutboundStep? && !move.Relay?
    ensures Conserves(Moved(s, move), id)
  {
    match move
    case SetSingular(_) =>
    case Add(remote, agent, readdressing) =>
      NewWayIsEmpty(s, remote, agent, readdressing, id);
      AddConserves(s.ways, s.calls, s.dropped, s.used, NewWay(s, remote, agent, readdressing), id);
    case AskRemove(remote) => AskConserves(s.ways, s.calls, s.dropped, s.used, Remove(remote), id);
    case AskMount(remote, listener) => AskConserves(s.ways, s.calls, s.dropped, s.used, Mount(remote, listener), id);
    case RouteDirectly(wave) => AskConserves(s.ways, s.calls, s.dropped, s.used, Routed(wave), id);
    case Enter(i, wave) => EnterConserves(s.ways, s.calls, s.dropped, s.used, i, wave, id);
  }

  lemma InboundMoveConserves(s: Interchange, i: nat, step: Step, id: nat)
    requires Conserves(s, id) && InterchangeSpec.Possible(s, InboundStep(i, step))
    ensures Conserves(Moved(s, InboundStep(i, step)), id)
  {
    InboundStepConserves(s.ways, s.calls, s.dropped, s.used, i, step, id);
  }

  lemma OutboundMoveConserves(s: Interchange, i: nat, step: Step, id: nat)
    requires Conserves(s, id) && InterchangeSpec.Possible(s, OutboundStep(i, step))
    ensures Conserves(Moved(s, OutboundStep(i, step)), id)
  {
    OutboundStepConserves(s.ways, s.calls, s.dropped, s.used, i, step, id);
  }

  lemma RelayMoveConserves(s: Interchange, i: nat, timeout: bool, id: nat)
    requires Conserves(s, id) && InterchangeSpec.Possible(s, InterchangeSpec.Relay(i, timeout))
    ensures Conserves(Moved(s, InterchangeSpec.Relay(i, timeout)), id)
  {
    RelayConserves(s.ways, s.calls, s.dropped, s.used, i, id);
  }

  lemma HandleMoveConserves(s: Interchange, timeout: bool, id: nat)
    requires Conserves(s, id) && InterchangeSpec.Possible(s, Handle(timeout))
    ensures Conserves(Moved(s, Handle(timeout)), id)
  {
    HandleConserves(s, timeout, id);
  }

  lemma MoveConserves(s: Interchange, move: Move, id: nat)
    requires Conserves(s, id) && InterchangeSpec.Possible(s, move)
    ensures Conserves(Moved(s, move), id)
  {
    match move
    case Handle(timeout) => HandleMoveConserves(s, timeout, id);
    case InboundStep(i, step) => InboundMoveConserves(s, i, step, id);
    case OutboundStep(i, step) => OutboundMoveConserves(s, i, step, id);
    case Relay(i, timeout) => RelayMoveConserves(s, i, timeout, id);
    case _ => OutsideConserves(s, move, id);
  }

  /**
   * Over every run: a wave that came in, through a remote or directly, is in exactly one place of the whole
   * interchange, once: in a lane, handed to a relay task, waiting to be routed, dropped, or handed out. Any other is
   * nowhere.
   */
  lemma {:induction false} EachIsInOnePlace(moves: seq<Move>, id: nat)
    requires Play(EMPTY_INTERCHANGE, moves).Some?
    ensures Conserves(Play(EMPTY_INTERCHANGE, moves).value, id)
  {
    if moves != [] {
      var init := moves[..|moves| - 1];
      EachIsInOnePlace(init, id);
      MoveConserves(Play(EMPTY_INTERCHANGE, init).value, moves[|moves| - 1], id);
    }
  }

  // ------------------------------------------------------------------ leaving once

  lemma {:induction false} CountAt(waves: seq<Wave>, i: nat, j: nat, id: nat)
    requires i < |waves| && j < |waves| && waves[i].id == id && waves[j].id == id
    ensures Count(waves, id) >= if i == j then 1 else 2
  {
    if i > 0 && j > 0 {
      CountAt(waves[1..], i - 1, j - 1, id);
    } else if i > 0 || j > 0 {
      var k := if i > 0 then i else j;
      CountAt(waves[1..], k - 1, k - 1, id);
    }
  }

  lemma HandedOutIsInWay(way: Way, i: nat, j: nat, id: nat)
    requires WayConserves(way, id) && i < |way.outbound.history.handed| && j < |way.outbound.history.handed|
    requires way.outbound.history.handed[i].wave.id == id && way.outbound.history.handed[j].wave.id == id
    ensures InWay(way, id) >= if i == j then 1 else 2
  {
    CountAt(HandedWaves(way.outbound.history.handed), i, j, id);
  }

  /** Over all its lanes an interchange hands out a wave at most once. */
  lemma {:induction false} LeavesAtMostOnce(moves: seq<Move>, out: nat, i: nat, out': nat, i': nat)
    requires Play(EMPTY_INTERCHANGE, moves).Some?
    requires var ways := Play(EMPTY_INTERCHANGE, moves).value.ways;
             && out < |ways| && i < |ways[out].outbound.history.handed|
             && out' < |ways| && i' < |ways[out'].outbound.history.handed|
             && ways[out].outbound.history.handed[i].wave.id == ways[out'].outbound.history.handed[i'].wave.id
    ensures out == out' && i == i'
  {
    var s := Play(EMPTY_INTERCHANGE, moves).value;
    var id := s.ways[out].outbound.history.handed[i].wave.id;
    EachIsInOnePlace(moves, id);
    HandedOutIsInWay(s.ways[out], i, if out == out' then i' else i, id);
    HandedOutIsInWay(s.ways[out'], i', i', id);
    SumAtLeast(Amounts(s.ways, id), out, out');
  }
}
