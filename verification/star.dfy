/** Star-to-star routing: the next hop of a transport, and what becomes of it from star to star. */
module StarRouting {
  import opened Loc

  datatype StarSub = Central | Super | Nexus | Maelstrom | Scribe | Jump | Fold | Machine {
    predicate IsForwarder() {
      !Central? && !Machine?
    }
  }

  /** A star is identified by its point. */
  datatype StarStub = StarStub(key: Point, kind: StarSub)

  datatype StarCon = Receiver(stub: StarStub) | Connector(stub: StarStub)

  datatype StarTemplate = StarTemplate(key: Point, kind: StarSub, connections: seq<StarCon>) {
    function ToStub(): StarStub {
      StarStub(key, kind)
    }
  }

  /** The routing part of a running star. */
  datatype StarNode = StarNode(point: Point, kind: StarSub, adjacents: map<Point, StarStub>)

  function AdjacentsOf(connections: seq<StarCon>): map<Point, StarStub> {
    if connections == [] then map[]
    else
      var last := connections[|connections| - 1];
      AdjacentsOf(connections[..|connections| - 1])[last.stub.key := last.stub]
  }

  function StarOf(template: StarTemplate): StarNode {
    StarNode(template.key, template.kind, AdjacentsOf(template.connections))
  }

  function StubsOf(connections: seq<StarCon>): set<StarStub> {
    set c | c in connections :: c.stub
  }

  lemma {:induction false} AdjacentsAreStubs(connections: seq<StarCon>)
    ensures var adjacents := AdjacentsOf(connections);
            && adjacents.Keys == (set stub | stub in StubsOf(connections) :: stub.key)
            && forall p | p in adjacents :: adjacents[p] in StubsOf(connections) && adjacents[p].key == p
  {
    if connections != [] {
      var init, last := connections[..|connections| - 1], connections[|connections| - 1];
      AdjacentsAreStubs(init);
      assert connections == init + [last];
      assert StubsOf(connections) == StubsOf(init) + {last.stub};
    }
  }

  method CollectAdjacents(template: StarTemplate) returns (star: StarNode)
    ensures star == StarOf(template)
  {
    var adjacents: map<Point, StarStub> := map[];
    for i := 0 to |template.connections|
      invariant adjacents == AdjacentsOf(template.connections[..i])
    {
      var stub := template.connections[i].stub;
      adjacents := adjacents[stub.key := stub];
      assert template.connections[..i + 1][..i] == template.connections[..i];
    }
    assert template.connections[..|template.connections|] == template.connections;
    star := StarNode(template.key, template.kind, adjacents);
  }

  function Forwarders(star: StarNode): set<Point> {
    set p | p in star.adjacents && star.adjacents[p].kind.IsForwarder()
  }

  /** The adjacent forwarders, each once, in whatever order the map yields them. */
  method CollectForwarders(star: StarNode) returns (forwarders: seq<Point>)
    ensures forall p :: p in forwarders <==> p in Forwarders(star)
    ensures |forwarders| == |Forwarders(star)|
  {
    forwarders := [];
    var left := star.adjacents.Keys;
    ghost var done: set<Point> := {};
    while left != {}
      invariant left !! done && left + done == star.adjacents.Keys
      invariant forall p :: p in forwarders <==> p in done && p in Forwarders(star)
      invariant |forwarders| == |done * Forwarders(star)|
      decreases left
    {
      var p :| p in left;
      OneMore(done, Forwarders(star), p);
      if star.adjacents[p].kind.IsForwarder() {
        forwarders := forwarders + [p];
      }
      left := left - {p};
      done := done + {p};
    }
    assert done * Forwarders(star) == Forwarders(star);
  }

  lemma OneMore(done: set<Point>, some: set<Point>, p: Point)
    requires p !in done
    ensures |(done + {p}) * some| == |done * some| + if p in some then 1 else 0
  {
    assert (done + {p}) * some == if p in some then done * some + {p} else done * some;
  }

  datatype HopOutcome = HopTo(surface: Surface) | NoForwarder | SearchNeeded

  ghost function OnlyOne(points: set<Point>): (p: Point)
    requires |points| == 1
    ensures points == {p}
  {
    var p :| p in points;
    assert |points - {p}| == 0;
    assert points == {p} + (points - {p});
    p
  }

  /** Where a transport goes next: to the star itself, straight to a neighbour, or to the only forwarding neighbour. */
  ghost function NextHop(star: StarNode, to: Surface): HopOutcome {
    if star.point == to.point then HopTo(ToSurface(star.point))
    else if to.point in star.adjacents then HopTo(to)
    else if |Forwarders(star)| == 1 then HopTo(ToSurface(OnlyOne(Forwarders(star))))
    else if Forwarders(star) == {} then NoForwarder
    else SearchNeeded
  }

  method ToHyperway(star: StarNode, forwarders: seq<Point>, to: Surface) returns (outcome: HopOutcome)
    requires forall p :: p in forwarders <==> p in Forwarders(star)
    requires |forwarders| == |Forwarders(star)|
    ensures outcome == NextHop(star, to)
  {
    if star.point == to.point {
      outcome := HopTo(ToSurface(star.point));
    } else if to.point in star.adjacents {
      outcome := HopTo(to);
    } else if |forwarders| == 1 {
      assert forwarders[0] in forwarders;
      outcome := HopTo(ToSurface(forwarders[0]));
    } else if forwarders == [] {
      outcome := NoForwarder;
    } else {
      assert forwarders[0] in forwarders;
      outcome := SearchNeeded;
    }
  }

  const MAX_HOPS: nat := 255

  /** The hop counter is a sixteen-bit number. */
  function NextHops(hops: nat): nat {
    (hops + 1) % 0x1_0000
  }

  datatype Reception = Injected | TooManyHops | CannotForward | Forwarded(outcome: HopOutcome)

  /** What a star does with a transport from the hyperway: count the hop, then refuse it, keep it, or pass it on. */
  ghost function ReceptionOf(star: StarNode, to: Surface, hops: nat): Reception {
    if NextHops(hops) > MAX_HOPS then TooManyHops
    else if to.point == star.point then Injected
    else if star.kind.IsForwarder() then Forwarded(NextHop(star, to))
    else CannotForward
  }

  method FromHyperway(star: StarNode, forwarders: seq<Point>, to: Surface, hops: nat)
      returns (reception: Reception, counted: nat)
    requires forall p :: p in forwarders <==> p in Forwarders(star)
    requires |forwarders| == |Forwarders(star)| && hops < 0x1_0000
    ensures reception == ReceptionOf(star, to, hops) && counted == NextHops(hops)
  {
    counted := if hops == 0xFFFF then 0 else hops + 1;
    if counted > 255 {
      reception := TooManyHops;
    } else if to.point == star.point {
      reception := Injected;
    } else if star.kind.IsForwarder() {
      var outcome := ToHyperway(star, forwarders, to);
      reception := Forwarded(outcome);
    } else {
      reception := CannotForward;
    }
  }

  // ------------------------------------------------------------------ a transport travelling

  type Network = map<Point, StarNode>

  datatype Verdict = Arrived | HopsExceeded | NotForwarder | NoWay(outcome: HopOutcome) | NoSuchStar

  /** The stars a transport reaches after it has been sent, in order, and why it stops. */
  datatype Journey = Journey(visited: seq<Point>, verdict: Verdict) {
    function After(star: Point): Journey {
      Journey([star] + visited, verdict)
    }
  }

  /** How many more stars a transport with this counter can reach before one of them refuses it. */
  function Budget(hops: nat): nat
    requires hops < 0x1_0000
  {
    if hops <= MAX_HOPS then MAX_HOPS + 1 - hops else if hops == 0xFFFF then MAX_HOPS + 2 else 1
  }

  /** A star sends a transport on its way. */
  ghost function Send(net: Network, at: Point, to: Surface, hops: nat): (j: Journey)
    requires at in net && hops < 0x1_0000
    ensures |j.visited| <= Budget(hops)
    decreases Budget(hops), 1
  {
    match NextHop(net[at], to)
    case HopTo(surface) =>
      if surface.point in net then Arrive(net, surface.point, to, hops)
      else Journey([], NoSuchStar)
    case outcome => Journey([], NoWay(outcome))
  }

  /** A star receives it. */
  ghost function Arrive(net: Network, at: Point, to: Surface, hops: nat): (j: Journey)
    requires at in net && hops < 0x1_0000
    ensures |j.visited| <= Budget(hops)
    decreases Budget(hops), 0
  {
    match ReceptionOf(net[at], to, hops)
    case TooManyHops => Journey([at], HopsExceeded)
    case Injected => Journey([at], Arrived)
    case CannotForward => Journey([at], NotForwarder)
    case Forwarded(_) => Send(net, at, to, NextHops(hops)).After(at)
  }

  /** In any network whatsoever a fresh transport reaches at most 256 stars. */
  lemma ForwardingEnds(net: Network, at: Point, to: Surface)
    requires at in net
    ensures |Send(net, at, to, 0).visited| <= 256
  {
  }

  ghost predicate WellNamed(net: Network) {
    forall p | p in net :: net[p].point == p
  }

  /** Every star reached is the sender itself (when it writes to itself) or a neighbour of the one before. */
  ghost predicate IsWalk(net: Network, from: Point, visited: seq<Point>)
    decreases |visited|
  {
    visited == [] || (
      && from in net && visited[0] in net
      && (visited[0] == from || visited[0] in net[from].adjacents)
      && IsWalk(net, visited[0], visited[1..]))
  }

  /** A transport only ever moves along links; it arrives exactly where it was sent, and nowhere before. */
  lemma {:induction false} JourneyIsWalk(net: Network, at: Point, to: Surface, hops: nat)
    requires WellNamed(net) && at in net && hops < 0x1_0000
    ensures var j := Send(net, at, to, hops);
            && IsWalk(net, at, j.visited)
            && (j.verdict.Arrived? <==>
                 j.visited != [] && j.visited[|j.visited| - 1] == to.point && !j.verdict.HopsExceeded?)
            && (forall i | 0 <= i < |j.visited| - 1 ::
                  j.visited[i] != to.point && j.visited[i] in net && net[j.visited[i]].kind.IsForwarder())
    decreases Budget(hops)
  {
    match NextHop(net[at], to)
    case HopTo(surface) =>
      if surface.point in net {
        var next := surface.point;
        if NextHops(hops) <= MAX_HOPS && to.point != next && net[next].kind.IsForwarder() {
          JourneyIsWalk(net, next, to, NextHops(hops));
        }
      }
    case _ =>
  }
}
