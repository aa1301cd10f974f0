/** The interchange task as an object that owns hyperways and a routing table. */
module InterchangeActor {
  import opened Wrappers
  import opened Loc
  import opened Transforms
  import L = HyperlaneSpec
  import opened HyperlaneActor
  import opened InterchangeSpec
  import InterchangeDelivery

  class HyperwayInterchange {
    var ways: seq<Hyperway>
    var taken: seq<nat>
    var hyperways: map<Surface, nat>
    var calls: seq<Call>
    var singularTo: Option<Surface>
    ghost var facts: seq<Way>
    ghost var used: set<nat>
    ghost var entered: map<nat, nat>
    ghost var dropped: seq<Wave>

    ghost function Lanes(): set<Hyperlane>
      reads this
    {
      (set way | way in ways :: way.inbound) + (set way | way in ways :: way.outbound)
    }

    /** Every way has two lanes of its own. */
    ghost predicate Valid()
      reads this
    {
      && |ways| == |taken| == |facts|
      && (forall i, j | 0 <= i < |ways| && 0 <= j < |ways| :: ways[i].inbound != ways[j].outbound)
      && (forall i, j | 0 <= i < j < |ways| ::
           ways[i].inbound != ways[j].inbound && ways[i].outbound != ways[j].outbound)
      && (forall i | 0 <= i < |ways| :: facts[i].remote == ways[i].remote)
      && (forall surface | surface in hyperways :: hyperways[surface] < |ways|)
    }

    ghost function WayAt(i: nat): Way
      requires Valid() && i < |ways|
      reads this, Lanes()
    {
      facts[i].(inbound := ways[i].inbound.State(), outbound := ways[i].outbound.State(), taken := taken[i])
    }

    ghost function State(): Interchange
      requires Valid()
      reads this, Lanes()
    {
      Interchange(seq(|ways|, i requires 0 <= i < |ways| reads this, Lanes() requires Valid() => WayAt(i)),
                  hyperways, calls, singularTo, used, entered, dropped)
    }

    constructor ()
      ensures Valid() && State() == EMPTY_INTERCHANGE
    {
      ways, taken, hyperways, calls, singularTo := [], [], map[], [], None;
      facts, used, entered, dropped := [], {}, map[], [];
    }

    method Singular(to: Surface)
      requires Valid()
      modifies this`singularTo
      ensures Valid() && State() == Moved(old(State()), SetSingular(to))
    {
      singularTo := Some(to);
    }

    lemma LanesAreTheirs()
      ensures forall i | 0 <= i < |ways| :: ways[i].inbound in Lanes() && ways[i].outbound in Lanes()
    {
      forall i | 0 <= i < |ways|
        ensures ways[i].inbound in Lanes() && ways[i].outbound in Lanes()
      {
        assert ways[i] in ways;
      }
    }

    method Attach(hyperway: Hyperway, ghost way: Way)
      requires Valid() && hyperway.inbound !in Lanes() && hyperway.outbound !in Lanes()
      requires hyperway.inbound != hyperway.outbound && way.remote == hyperway.remote
      modifies this`ways, this`taken, this`facts
      ensures Valid()
      ensures ways == old(ways) + [hyperway] && taken == old(taken) + [0] && facts == old(facts) + [way]
    {
      LanesAreTheirs();
      ways := ways + [hyperway];
      taken := taken + [0];
      facts := facts + [way];
    }

    method Enlist(hyperway: Hyperway, ghost way: Way)
      requires Valid() && hyperway.inbound !in Lanes() && hyperway.outbound !in Lanes()
      requires hyperway.inbound != hyperway.outbound && way.remote == hyperway.remote
      requires way.inbound == hyperway.inbound.State() && way.outbound == hyperway.outbound.State() && way.taken == 0
      modifies this`ways, this`taken, this`facts
      ensures Valid()
      ensures State() == old(State()).(ways := old(State()).ways + [way])
    {
      ghost var before := State().ways;
      Attach(hyperway, way);
      assert WayAt(|ways| - 1) == way;
      assert forall i | 0 <= i < |ways| - 1 :: WayAt(i) == before[i];
      assert State().ways == before + [way];
    }

    /** A new hyperway joins the others; its registration is mailed to the task. */
    method AddHyperway(remote: Surface, agent: Agent, readdressing: seq<Transform>)
      requires Valid() && Possible(State(), Add(remote, agent, readdressing))
      modifies this
      ensures Valid() && State() == Moved(old(State()), Add(remote, agent, readdressing))
    {
      ghost var way := NewWay(State(), remote, agent, readdressing);
      var hyperway := PrimedHyperway(remote, agent, readdressing, singularTo);
      calls := calls + [Internal(|ways|)];
      Enlist(hyperway, way);
    }

    /** The relay's listener is mailed to an inbound lane; if that has panicked, nobody notices. */
    method ListenInbound(i: nat, listener: L.ListenerId)
      requires Valid() && i < |ways| && CanAttach(ways[i].inbound.State())
      modifies ways[i].inbound
      ensures Valid()
      ensures State() == WithInbound(old(State()), i, Attached(old(ways[i].inbound.State()), listener))
    {
      var _ := ways[i].inbound.TrySend(L.Ext(listener));
      assert forall k | 0 <= k < |ways| && k != i :: WayAt(k) == old(WayAt(k));
    }

    method ListenOutbound(i: nat, listener: L.ListenerId)
      requires Valid() && i < |ways| && CanAttach(ways[i].outbound.State())
      modifies ways[i].outbound
      ensures Valid()
      ensures State() == WithOutbound(old(State()), i, Attached(old(ways[i].outbound.State()), listener))
    {
      var _ := ways[i].outbound.TrySend(L.Ext(listener));
      assert forall k | 0 <= k < |ways| && k != i :: WayAt(k) == old(WayAt(k));
    }

    method PassOutbound(i: nat, call: L.Call)
      requires Valid() && i < |ways| && L.Enabled(ways[i].outbound.State(), L.Accept(call))
      modifies ways[i].outbound
      ensures Valid()
      ensures State() == WithOutbound(old(State()), i, L.Next(old(ways[i].outbound.State()), L.Accept(call)))
    {
      var _ := ways[i].outbound.TrySend(call);
      assert forall k | 0 <= k < |ways| && k != i :: WayAt(k) == old(WayAt(k));
    }

    /**
     * One turn of the interchange's loop. A routed wave goes into the mailbox of the way registered under its
     * recipient, or is dropped if there is none.
     */
    method HandleCall(timeout: bool)
      requires Valid() && Possible(State(), Handle(timeout))
      modifies this`calls, this`hyperways, this`dropped, Lanes()
      ensures Valid() && State() == Moved(old(State()), Handle(timeout))
      ensures old(calls)[0].Routed? ==>
                InterchangeDelivery.PassedOrDropped(old(State()), State(), old(calls)[0].wave, timeout)
    {
      if calls[0].Routed? {
        InterchangeDelivery.RoutedExactly(State(), calls[0].wave, timeout);
      }
      var call := calls[0];
      calls := calls[1..];
      assert State() == old(State()).(calls := old(calls)[1..]);
      Act(call, timeout);
    }

    method Act(call: Call, timeout: bool)
      requires Valid() && CanHandle(State(), call, timeout)
      modifies this`hyperways, this`dropped, Lanes()
      ensures Valid() && State() == Handled(old(State()), call, timeout)
      ensures call.Routed? ==> InterchangeDelivery.PassedOrDropped(old(State()), State(), call.wave, timeout)
    {
      if call.Routed? {
        InterchangeDelivery.HandledRouted(State(), call.wave, timeout);
      }
      match call {
        case Internal(i) =>
          assert WayAt(i) == State().ways[i];
          ListenInbound(i, 0);
          Register(ways[i].remote, i);
        case Remove(remote) =>
          Unregister(remote);
        case Routed(wave) =>
          if wave.to.Single? && wave.to.surface in hyperways && !timeout {
            var i := hyperways[wave.to.surface];
            assert WayAt(i) == State().ways[i];
            PassOutbound(i, L.WaveCall(wave));
          } else {
            Drop(wave);
          }
        case Mount(remote, listener) =>
          if remote in hyperways {
            var i := hyperways[remote];
            assert WayAt(i) == State().ways[i];
            ListenOutbound(i, listener);
          }
      }
    }

    /** A wave that cannot be routed is given up with a warning. */
    ghost method Drop(wave: Wave)
      requires Valid()
      modifies this`dropped
      ensures Valid() && State() == old(State()).(dropped := old(dropped) + [wave])
    {
      dropped := dropped + [wave];
      assert forall k | 0 <= k < |ways| :: WayAt(k) == old(WayAt(k));
    }

    method Register(remote: Surface, i: nat)
      requires Valid() && i < |ways|
      modifies this`hyperways
      ensures Valid() && State() == old(State()).(hyperways := old(hyperways)[remote := i])
    {
      hyperways := hyperways[remote := i];
      assert forall k | 0 <= k < |ways| :: WayAt(k) == old(WayAt(k));
    }

    method Unregister(remote: Surface)
      requires Valid()
      modifies this`hyperways
      ensures Valid() && State() == old(State()).(hyperways := old(hyperways) - {remote})
    {
      hyperways := hyperways - {remote};
      assert forall k | 0 <= k < |ways| :: WayAt(k) == old(WayAt(k));
    }
  }

  /** Stamped by its constructor, readdressed as asked, and addressed to the singular target if there is one. */
  method PrimedHyperway(remote: Surface, agent: Agent, readdressing: seq<Transform>, singular: Option<Surface>)
    returns (hyperway: Hyperway)
    requires |readdressing| < L.MAILBOX - 3
    ensures fresh(hyperway.inbound) && fresh(hyperway.outbound) && hyperway.inbound != hyperway.outbound
    ensures hyperway.remote == remote && hyperway.outbound.State() == L.EMPTY
    ensures hyperway.inbound.State() ==
            L.Primed(Way(remote, agent, readdressing, singular, L.EMPTY, L.EMPTY, 0).Primers())
  {
    hyperway := new Hyperway(remote, agent);
    ghost var stamps := [FromTransform(remote), AgentTransform(agent)];
    assert stamps + readdressing[..0] == stamps;
    for i := 0 to |readdressing|
      invariant hyperway.inbound.State() == L.Primed(stamps + readdressing[..i])
      invariant hyperway.outbound.State() == L.EMPTY
      modifies hyperway.inbound
    {
      PrimingExtends(stamps + readdressing[..i], readdressing[i]);
      assert stamps + readdressing[..i + 1] == stamps + readdressing[..i] + [readdressing[i]];
      hyperway.TransformInbound(readdressing[i]);
    }
    assert readdressing[..|readdressing|] == readdressing;
    assert stamps + readdressing + [] == stamps + readdressing;
    if singular.Some? {
      PrimingExtends(stamps + readdressing, ToTransform(singular.value));
      hyperway.TransformInbound(ToTransform(singular.value));
    }
  }
}
