/** How a machine lays out its stars: the machine star, hub-shaped templates, and delivery inside them. */
module MachineTopology {
  import opened Loc
  import opened StarRouting

  // ------------------------------------------------------------------ the machine star

  ghost predicate DistinctKeys(stars: seq<StarTemplate>) {
    forall i, j | 0 <= i < j < |stars| :: stars[i].key != stars[j].key
  }

  ghost predicate FreshKey(stars: seq<StarTemplate>, key: Point) {
    forall i | 0 <= i < |stars| :: stars[i].key != key
  }

  function MachineStub(key: Point): StarStub {
    StarStub(key, Machine)
  }

  function Connected(star: StarTemplate, machine: Point): StarTemplate {
    star.(connections := star.connections + [Connector(MachineStub(machine))])
  }

  function MachineStar(stars: seq<StarTemplate>, machine: Point): StarTemplate {
    StarTemplate(machine, Machine, seq(|stars|, i requires 0 <= i < |stars| => Receiver(stars[i].ToStub())))
  }

  function Extended(stars: seq<StarTemplate>, machine: Point): seq<StarTemplate> {
    seq(|stars|, i requires 0 <= i < |stars| => Connected(stars[i], machine)) + [MachineStar(stars, machine)]
  }

  /** Star by star: each gains one connector, to the machine star, which has one receiver for each and nothing else. */
  lemma MachineStarLinks(stars: seq<StarTemplate>, machine: Point, i: nat)
    requires i < |stars|
    ensures var all := Extended(stars, machine);
            && |all| == |stars| + 1
            && (all[i].key, all[i].kind) == (stars[i].key, stars[i].kind)
            && all[i].connections == stars[i].connections + [Connector(StarStub(machine, Machine))]
            && (all[|stars|].key, all[|stars|].kind) == (machine, Machine)
            && |all[|stars|].connections| == |stars|
            && all[|stars|].connections[i] == Receiver(StarStub(stars[i].key, stars[i].kind))
  {
  }

  /** Every star connects to a new machine star, which receives each of them. */
  method WithMachineStar(template: seq<StarTemplate>, machineKey: Point) returns (stars: seq<StarTemplate>)
    ensures stars == Extended(template, machineKey)
  {
    stars := template;
    var machine := StarTemplate(machineKey, Machine, []);
    for i := 0 to |template|
      invariant |stars| == |template|
      invariant machine.ToStub() == MachineStub(machineKey)
      invariant forall k | 0 <= k < i :: stars[k] == Connected(template[k], machineKey)
      invariant forall k | i <= k < |template| :: stars[k] == template[k]
      invariant machine.connections == MachineStar(template[..i], machineKey).connections
    {
      stars := stars[i := stars[i].(connections := stars[i].connections + [Connector(machine.ToStub())])];
      machine := machine.(connections := machine.connections + [Receiver(stars[i].ToStub())]);
    }
    assert template[..|template|] == template;
    stars := stars + [machine];
  }

  // ------------------------------------------------------------------ every connector has its receiver

  function Members(stars: seq<StarTemplate>): set<StarStub> {
    set star | star in stars :: star.ToStub()
  }

  /** Connections lead to stars of the template, under their own names. */
  ghost predicate Closed(stars: seq<StarTemplate>) {
    forall i | 0 <= i < |stars| :: StubsOf(stars[i].connections) <= Members(stars)
  }

  /** As many connectors from one star to the other as receivers for them on the other side. */
  predicate PairedAt(a: StarTemplate, b: StarTemplate) {
    multiset(a.connections)[Connector(b.ToStub())] == multiset(b.connections)[Receiver(a.ToStub())]
  }

  ghost predicate Paired(stars: seq<StarTemplate>) {
    forall i, j | 0 <= i < |stars| && 0 <= j < |stars| :: PairedAt(stars[i], stars[j])
  }

  lemma {:induction false} ReceivesEachOnce(stars: seq<StarTemplate>, machine: Point, stub: StarStub)
    requires DistinctKeys(stars)
    ensures multiset(MachineStar(stars, machine).connections)[Receiver(stub)] == if stub in Members(stars) then 1 else 0
    ensures Connector(stub) !in multiset(MachineStar(stars, machine).connections)
  {
    if stars == [] {
      assert MachineStar(stars, machine).connections == [];
    } else {
      var init, last := stars[..|stars| - 1], stars[|stars| - 1];
      ReceivesEachOnce(init, machine, stub);
      assert MachineStar(stars, machine).connections ==
             MachineStar(init, machine).connections + [Receiver(last.ToStub())];
      assert stars == init + [last];
      assert last.ToStub() !in Members(init);
    }
  }

  lemma FreshStub(stars: seq<StarTemplate>, machine: Point, c: StarCon)
    requires FreshKey(stars, machine) && Closed(stars) && c.stub == MachineStub(machine)
    ensures c.stub !in Members(stars)
    ensures forall star | star in stars :: c !in multiset(star.connections)
  {
    forall star | star in stars
      ensures c !in star.connections
    {
      assert StubsOf(star.connections) <= Members(stars);
      assert c in star.connections ==> c.stub in StubsOf(star.connections);
    }
  }

  lemma ConnectedPairs(stars: seq<StarTemplate>, machine: Point, a: StarTemplate, b: StarTemplate)
    requires DistinctKeys(stars) && FreshKey(stars, machine) && Closed(stars)
    requires a in stars && b in stars && PairedAt(a, b)
    ensures PairedAt(Connected(a, machine), Connected(b, machine))
    ensures PairedAt(Connected(a, machine), MachineStar(stars, machine))
    ensures PairedAt(MachineStar(stars, machine), Connected(b, machine))
  {
    FreshStub(stars, machine, Connector(MachineStub(machine)));
    FreshStub(stars, machine, Receiver(MachineStub(machine)));
    assert a.ToStub() in Members(stars) && b.ToStub() in Members(stars);
    ReceivesEachOnce(stars, machine, a.ToStub());
    ReceivesEachOnce(stars, machine, b.ToStub());
  }

  lemma MachineStarClosed(stars: seq<StarTemplate>, machine: Point)
    requires Closed(stars)
    ensures Closed(Extended(stars, machine))
  {
    var n, all := |stars|, Extended(stars, machine);
    assert all[n] in all && all[n].ToStub() == MachineStub(machine);
    forall stub | stub in Members(stars)
      ensures stub in Members(all)
    {
      var i :| 0 <= i < n && stars[i].ToStub() == stub;
      assert all[i] in all && all[i].ToStub() == stub;
    }
    forall i | 0 <= i < |all|
      ensures StubsOf(all[i].connections) <= Members(all)
    {
      if i < n {
        assert StubsOf(all[i].connections) == StubsOf(stars[i].connections) + {MachineStub(machine)};
      } else {
        forall c | c in all[n].connections
          ensures c.stub in Members(all)
        {
          var k :| 0 <= k < n && c == Receiver(stars[k].ToStub());
          assert stars[k] in stars;
        }
      }
    }
  }

  lemma ExtendedPairs(stars: seq<StarTemplate>, machine: Point, i: nat, j: nat)
    requires DistinctKeys(stars) && FreshKey(stars, machine) && Closed(stars) && Paired(stars)
    requires i <= |stars| && j <= |stars|
    ensures PairedAt(Extended(stars, machine)[i], Extended(stars, machine)[j])
  {
    var n := |stars|;
    if i == n && j == n {
      ReceivesEachOnce(stars, machine, MachineStub(machine));
      FreshStub(stars, machine, Connector(MachineStub(machine)));
    } else if i == n {
      assert PairedAt(stars[j], stars[j]);
      ConnectedPairs(stars, machine, stars[j], stars[j]);
    } else if j == n {
      assert PairedAt(stars[i], stars[i]);
      ConnectedPairs(stars, machine, stars[i], stars[i]);
    } else {
      assert PairedAt(stars[i], stars[j]);
      ConnectedPairs(stars, machine, stars[i], stars[j]);
    }
  }

  /** Adding the machine star keeps every connector paired with a receiver. */
  lemma MachineStarKeepsPairs(stars: seq<StarTemplate>, machine: Point)
    requires DistinctKeys(stars) && FreshKey(stars, machine) && Closed(stars) && Paired(stars)
    ensures DistinctKeys(Extended(stars, machine)) && Closed(Extended(stars, machine))
            && Paired(Extended(stars, machine))
  {
    var all := Extended(stars, machine);
    MachineStarClosed(stars, machine);
    forall i, j | 0 <= i < |all| && 0 <= j < |all|
      ensures PairedAt(all[i], all[j])
    {
      ExtendedPairs(stars, machine, i, j);
    }
  }

  // ------------------------------------------------------------------ hubs

  /** One forwarding star in the middle, every other star connected to it and to nothing else. */
  ghost predicate IsHub(stars: seq<StarTemplate>, hub: nat) {
    && hub < |stars| && stars[hub].kind.IsForwarder()
    && DistinctKeys(stars)
    && (forall i | 0 <= i < |stars| && i != hub :: StubsOf(stars[i].connections) == {stars[hub].ToStub()})
    && StubsOf(stars[hub].connections) == Members(stars) - {stars[hub].ToStub()}
  }

  /** The running stars by point; a later template with the same key would replace an earlier one. */
  function NetworkOf(stars: seq<StarTemplate>): Network {
    if stars == [] then map[]
    else
      var last := stars[|stars| - 1];
      NetworkOf(stars[..|stars| - 1])[last.key := StarOf(last)]
  }

  lemma {:induction false} NetworkHolds(stars: seq<StarTemplate>)
    requires DistinctKeys(stars)
    ensures forall i | 0 <= i < |stars| ::
            stars[i].key in NetworkOf(stars) && NetworkOf(stars)[stars[i].key] == StarOf(stars[i])
    ensures forall p | p in NetworkOf(stars) :: exists i :: 0 <= i < |stars| && stars[i].key == p
    ensures WellNamed(NetworkOf(stars))
  {
    if stars != [] {
      var init := stars[..|stars| - 1];
      NetworkHolds(init);
      forall p | p in NetworkOf(stars)
        ensures exists i :: 0 <= i < |stars| && stars[i].key == p
      {
        if p in NetworkOf(init) {
          var i :| 0 <= i < |init| && init[i].key == p;
          assert stars[i].key == p;
        } else {
          assert stars[|stars| - 1].key == p;
        }
      }
    }
  }

  /** A leaf sees the hub and the machine star. */
  lemma LeafAdjacents(stars: seq<StarTemplate>, hub: nat, machine: Point, i: nat)
    requires IsHub(stars, hub) && FreshKey(stars, machine) && i < |stars| && i != hub
    ensures StarOf(Connected(stars[i], machine)).adjacents.Keys == {stars[hub].key, machine}
    ensures Forwarders(StarOf(Connected(stars[i], machine))) == {stars[hub].key}
  {
    var star, middle := Connected(stars[i], machine), stars[hub].ToStub();
    AdjacentsAreStubs(star.connections);
    assert StubsOf(star.connections) == {middle, MachineStub(machine)};
    assert StarOf(star).adjacents[middle.key] in {middle, MachineStub(machine)};
  }

  lemma HubAdjacents(stars: seq<StarTemplate>, hub: nat, machine: Point)
    requires IsHub(stars, hub) && FreshKey(stars, machine)
    ensures forall i | 0 <= i < |stars| && i != hub :: stars[i].key in StarOf(Connected(stars[hub], machine)).adjacents
    ensures machine in StarOf(Connected(stars[hub], machine)).adjacents
  {
    var star := Connected(stars[hub], machine);
    AdjacentsAreStubs(star.connections);
    assert StubsOf(star.connections) == StubsOf(stars[hub].connections) + {MachineStub(machine)};
    assert MachineStub(machine) in StubsOf(star.connections);
    forall i | 0 <= i < |stars| && i != hub
      ensures stars[i].key in StarOf(star).adjacents
    {
      assert stars[i] in stars && stars[i].key != stars[hub].key;
      assert stars[i].ToStub() in StubsOf(star.connections);
    }
  }

  lemma MachineAdjacents(stars: seq<StarTemplate>, machine: Point)
    ensures forall i | 0 <= i < |stars| :: stars[i].key in StarOf(MachineStar(stars, machine)).adjacents
  {
    var star := MachineStar(stars, machine);
    AdjacentsAreStubs(star.connections);
    forall i | 0 <= i < |stars|
      ensures stars[i].key in StarOf(star).adjacents
    {
      assert star.connections[i] in star.connections;
      assert stars[i].ToStub() in StubsOf(star.connections);
    }
  }

  /** The machine a hub template turns into, running. */
  function Running(stars: seq<StarTemplate>, machine: Point): Network {
    NetworkOf(Extended(stars, machine))
  }

  lemma RunningHolds(stars: seq<StarTemplate>, machine: Point)
    requires DistinctKeys(stars) && FreshKey(stars, machine)
    ensures var net := Running(stars, machine);
            && WellNamed(net)
            && machine in net && net[machine] == StarOf(MachineStar(stars, machine))
            && (forall i | 0 <= i < |stars| ::
                 stars[i].key in net && net[stars[i].key] == StarOf(Connected(stars[i], machine)))
            && (forall p | p in net :: p == machine || exists i :: 0 <= i < |stars| && stars[i].key == p)
  {
    var all, net := Extended(stars, machine), Running(stars, machine);
    assert DistinctKeys(all);
    NetworkHolds(all);
    assert all[|stars|] == MachineStar(stars, machine);
    forall i | 0 <= i < |stars|
      ensures stars[i].key in net && net[stars[i].key] == StarOf(Connected(stars[i], machine))
    {
      assert all[i] == Connected(stars[i], machine);
    }
    forall p | p in net
      ensures p == machine || exists i :: 0 <= i < |stars| && stars[i].key == p
    {
      var i :| 0 <= i < |all| && all[i].key == p;
      if i < |stars| {
        assert stars[i].key == p;
      }
    }
  }

  /** A transport to the star itself or to a neighbour takes one hop. */
  lemma OneHop(net: Network, from: Point, to: Surface, hops: nat)
    requires WellNamed(net) && from in net && to.point in net && hops < MAX_HOPS
    requires from == to.point || to.point in net[from].adjacents
    ensures Send(net, from, to, hops) == Journey([to.point], Arrived)
  {
    var surface := if from == to.point then ToSurface(from) else to;
    assert NextHop(net[from], to) == HopTo(surface);
    assert Arrive(net, to.point, to, hops) == Journey([to.point], Arrived);
  }

  lemma PassedOn(star: StarNode, to: Surface)
    requires to.point != star.point && star.kind.IsForwarder()
    ensures ReceptionOf(star, to, 0).Forwarded?
  {
  }

  lemma ForwardingHop(net: Network, middle: Point, to: Surface, hops: nat, rest: Journey)
    requires hops < 0x1_0000 && middle in net && ReceptionOf(net[middle], to, hops).Forwarded?
    requires rest == Send(net, middle, to, NextHops(hops))
    ensures Arrive(net, middle, to, hops) == rest.After(middle)
  {
  }

  lemma OnlyForwarder(star: StarNode, middle: Point, to: Surface)
    requires star.point != to.point && to.point !in star.adjacents && Forwarders(star) == {middle}
    ensures NextHop(star, to) == HopTo(ToSurface(middle))
  {
    assert |Forwarders(star)| == 1;
  }

  /** Anything else goes through the only forwarder. */
  lemma ByTheForwarder(net: Network, from: Point, middle: Point, to: Surface)
    requires WellNamed(net) && from in net && middle in net && to.point in net && to.point !in {from, middle}
    requires to.point !in net[from].adjacents && Forwarders(net[from]) == {middle}
    requires net[middle].kind.IsForwarder() && to.point in net[middle].adjacents
    ensures Send(net, from, to, 0) == Journey([middle, to.point], Arrived)
  {
    OneHop(net, middle, to, 1);
    PassedOn(net[middle], to);
    ForwardingHop(net, middle, to, 0, Journey([to.point], Arrived));
    OnlyForwarder(net[from], middle, to);
    assert Send(net, from, to, 0) == Arrive(net, middle, to, 0);
  }

  lemma LeafLinks(stars: seq<StarTemplate>, hub: nat, machine: Point, from: Point)
    requires IsHub(stars, hub) && FreshKey(stars, machine)
    requires from in Running(stars, machine) && from !in {stars[hub].key, machine}
    ensures var star := Running(stars, machine)[from];
            Forwarders(star) == {stars[hub].key} && star.adjacents.Keys == {stars[hub].key, machine}
  {
    RunningHolds(stars, machine);
    var i :| 0 <= i < |stars| && stars[i].key == from;
    LeafAdjacents(stars, hub, machine, i);
  }

  /** The hub and the machine star are linked to everybody else. */
  lemma CentralLinks(stars: seq<StarTemplate>, hub: nat, machine: Point, from: Point, to: Point)
    requires IsHub(stars, hub) && FreshKey(stars, machine)
    requires from in Running(stars, machine) && to in Running(stars, machine) && from != to
    requires from in {stars[hub].key, machine}
    ensures to in Running(stars, machine)[from].adjacents
  {
    RunningHolds(stars, machine);
    HubAdjacents(stars, hub, machine);
    MachineAdjacents(stars, machine);
    assert to == machine || exists i :: 0 <= i < |stars| && stars[i].key == to;
  }

  /** Any star of the machine reaches any star, itself included: directly, or between two leaves by way of the hub. */
  lemma HubDelivers(stars: seq<StarTemplate>, hub: nat, machine: Point, from: Point, to: Surface)
    requires IsHub(stars, hub) && FreshKey(stars, machine)
    requires from in Running(stars, machine) && to.point in Running(stars, machine)
    ensures var middle := stars[hub].key;
            Send(Running(stars, machine), from, to, 0) ==
            Journey(if from == to.point || middle in {from, to.point} || machine in {from, to.point} then [to.point]
                    else [middle, to.point],
                    Arrived)
  {
    var net, middle := Running(stars, machine), stars[hub].key;
    RunningHolds(stars, machine);
    if from == to.point {
      OneHop(net, from, to, 0);
    } else if from in {middle, machine} {
      CentralLinks(stars, hub, machine, from, to.point);
      OneHop(net, from, to, 0);
    } else {
      LeafLinks(stars, hub, machine, from);
      if to.point in {middle, machine} {
        OneHop(net, from, to, 0);
      } else {
        CentralLinks(stars, hub, machine, middle, to.point);
        ByTheForwarder(net, from, middle, to);
      }
    }
  }

  /** What is delivered is exactly what is addressed to a star of the machine. */
  lemma HubDeliversMembersOnly(stars: seq<StarTemplate>, hub: nat, machine: Point, from: Point, to: Surface)
    requires IsHub(stars, hub) && FreshKey(stars, machine) && from in Running(stars, machine)
    ensures Send(Running(stars, machine), from, to, 0).verdict.Arrived? <==> to.point in Running(stars, machine)
  {
    var net := Running(stars, machine);
    RunningHolds(stars, machine);
    if to.point in net {
      HubDelivers(stars, hub, machine, from, to);
    } else {
      JourneyIsWalk(net, from, to, 0);
      WalkStaysInside(net, from, Send(net, from, to, 0).visited);
    }
  }

  lemma {:induction false} WalkStaysInside(net: Network, from: Point, visited: seq<Point>)
    requires IsWalk(net, from, visited)
    ensures forall i | 0 <= i < |visited| :: visited[i] in net
    decreases |visited|
  {
    if visited != [] {
      WalkStaysInside(net, visited[0], visited[1..]);
      assert forall i | 1 <= i < |visited| :: visited[i] == visited[1..][i - 1];
    }
  }

  // ------------------------------------------------------------------ the default template

  function StarPoint(name: string): Point {
    Point(Star(name), [])
  }

  const NEXUS := StarStub(StarPoint("nexus"), Nexus)

  const LEAVES: seq<StarStub> :=
    [StarStub(StarPoint("central"), Central), StarStub(StarPoint("super"), Super),
     StarStub(StarPoint("maelstrom"), Maelstrom), StarStub(StarPoint("scribe"), Scribe),
     StarStub(StarPoint("jump"), Jump), StarStub(StarPoint("fold"), Fold)]

  function LeafOf(stub: StarStub, hub: StarStub): StarTemplate {
    StarTemplate(stub.key, stub.kind, [Connector(hub)])
  }

  function HubOf(hub: StarStub, leaves: seq<StarStub>): StarTemplate {
    StarTemplate(hub.key, hub.kind, seq(|leaves|, i requires 0 <= i < |leaves| => Receiver(leaves[i])))
  }

  /** A leaf, the hub, and the other leaves: the order in which the default template lists them. */
  function HubTemplate(hub: StarStub, leaves: seq<StarStub>): seq<StarTemplate>
    requires leaves != []
  {
    [LeafOf(leaves[0], hub), HubOf(hub, leaves)]
    + seq(|leaves| - 1, i requires 0 <= i < |leaves| - 1 => LeafOf(leaves[i + 1], hub))
  }

  function DefaultTemplate(): seq<StarTemplate> {
    HubTemplate(NEXUS, LEAVES)
  }

  lemma HubTemplateIsHub(hub: StarStub, leaves: seq<StarStub>)
    requires leaves != [] && hub.kind.IsForwarder()
    requires forall i | 0 <= i < |leaves| :: leaves[i].key != hub.key
    requires forall i, j | 0 <= i < j < |leaves| :: leaves[i].key != leaves[j].key
    ensures IsHub(HubTemplate(hub, leaves), 1) && Closed(HubTemplate(hub, leaves))
  {
    var stars := HubTemplate(hub, leaves);
    assert forall i | 2 <= i < |stars| :: stars[i] == LeafOf(leaves[i - 1], hub);
    var known, others := StubsOf(stars[1].connections), Members(stars) - {hub};
    forall stub | stub in known
      ensures stub in others
    {
      var k :| 0 <= k < |leaves| && leaves[k] == stub;
      assert stars[if k == 0 then 0 else k + 1].ToStub() == stub;
      assert stars[if k == 0 then 0 else k + 1] in stars;
    }
    forall stub | stub in others
      ensures stub in known
    {
      var i :| 0 <= i < |stars| && stars[i].ToStub() == stub;
      assert stars[1].connections[if i == 0 then 0 else i - 1] == Receiver(stub);
      assert Receiver(stub) in stars[1].connections;
    }
    assert known == others;
  }

  lemma {:induction false} CountReceivers(leaves: seq<StarStub>, hub: StarStub, stub: StarStub)
    requires forall i, j | 0 <= i < j < |leaves| :: leaves[i] != leaves[j]
    ensures multiset(HubOf(hub, leaves).connections)[Receiver(stub)] == if stub in leaves then 1 else 0
    ensures Connector(stub) !in multiset(HubOf(hub, leaves).connections)
  {
    if leaves == [] {
      assert HubOf(hub, leaves).connections == [];
    } else {
      var init, last := leaves[..|leaves| - 1], leaves[|leaves| - 1];
      CountReceivers(init, hub, stub);
      assert HubOf(hub, leaves).connections == HubOf(hub, init).connections + [Receiver(last)];
      assert leaves == init + [last];
    }
  }

  /** In such a template every connector has its receiver, so adding the machine star keeps it that way. */
  lemma HubTemplatePairs(hub: StarStub, leaves: seq<StarStub>)
    requires leaves != [] && hub !in leaves
    requires forall i, j | 0 <= i < j < |leaves| :: leaves[i] != leaves[j]
    ensures Paired(HubTemplate(hub, leaves))
  {
    var stars := HubTemplate(hub, leaves);
    var center := HubOf(hub, leaves);
    forall x | x in leaves
      ensures PairedAt(LeafOf(x, hub), center) && PairedAt(center, LeafOf(x, hub))
    {
      CountReceivers(leaves, hub, x);
    }
    CountReceivers(leaves, hub, hub);
    assert PairedAt(center, center);
    forall i | 0 <= i < |stars| && i != 1
      ensures exists x :: x in leaves && stars[i] == LeafOf(x, hub)
    {
      assert stars[i] == LeafOf(leaves[if i == 0 then 0 else i - 1], hub);
    }
  }

  lemma DefaultIsHub()
    ensures IsHub(DefaultTemplate(), 1) && Closed(DefaultTemplate()) && Paired(DefaultTemplate())
  {
    HubTemplateIsHub(NEXUS, LEAVES);
    HubTemplatePairs(NEXUS, LEAVES);
  }

  /** The default machine has one star of each kind but the machine star, the nexus in the middle. */
  lemma DefaultStars(kind: StarSub)
    ensures |DefaultTemplate()| == 7 && DefaultTemplate()[1].kind == Nexus
    ensures kind != Machine <==> exists i :: 0 <= i < 7 && DefaultTemplate()[i].kind == kind
    ensures forall i, j | 0 <= i < j < 7 :: DefaultTemplate()[i].kind != DefaultTemplate()[j].kind
    ensures forall i | 0 <= i < 7 && i != 1 ::
            DefaultTemplate()[i].connections == [Connector(DefaultTemplate()[1].ToStub())]
  {
    var stars := DefaultTemplate();
    assert forall i | 2 <= i < 7 :: stars[i] == LeafOf(LEAVES[i - 1], NEXUS);
    assert stars[0].kind == Central && stars[1].kind == Nexus && stars[2].kind == Super && stars[3].kind == Maelstrom;
    assert stars[4].kind == Scribe && stars[5].kind == Jump && stars[6].kind == Fold;
  }
}
