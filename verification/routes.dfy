/** How far a transport gets: routes of any length, the limit on hops, and the two ways of having nowhere to go. */
module RouteLength {
  import opened Loc
  import opened StarRouting

  /**
   * A route from one star to another: each star before the last knows neither the destination nor more than one star of
   * a forwarding kind, which is the next on the route and of a forwarding kind itself; the last but one knows the
   * destination.
   */
  ghost predicate IsRoute(net: Network, from: Point, route: seq<Point>, to: Surface)
    decreases |route|
  {
    && route != [] && from in net && from != to.point && route[0] in net
    && if |route| == 1 then route[0] == to.point && to.point in net[from].adjacents
       else
         && to.point !in net[from].adjacents
         && (forall p | p in net[from].adjacents ::
               net[from].adjacents[p].kind !in {Central, Machine} <==> p == route[0])
         && route[0] in net[from].adjacents
         && net[route[0]].kind !in {Central, Machine}
         && IsRoute(net, route[0], route[1..], to)
  }

  /** A star on the route sends the transport to the next. */
  lemma NextOnRoute(net: Network, from: Point, route: seq<Point>, to: Surface)
    requires WellNamed(net) && IsRoute(net, from, route, to)
    ensures NextHop(net[from], to).HopTo? && NextHop(net[from], to).surface.point == route[0]
  {
    if |route| > 1 {
      assert Forwarders(net[from]) == {route[0]};
    }
  }

  lemma SendOnRoute(net: Network, from: Point, route: seq<Point>, to: Surface, hops: nat)
    requires WellNamed(net) && IsRoute(net, from, route, to) && hops <= 255
    ensures hops == 255 ==> Send(net, from, to, hops) == Journey([route[0]], HopsExceeded)
    ensures hops < 255 && |route| == 1 ==> Send(net, from, to, hops) == Journey([route[0]], Arrived)
    ensures hops < 255 && |route| > 1 ==>
              Send(net, from, to, hops) == Send(net, route[0], to, hops + 1).After(route[0])
  {
    NextOnRoute(net, from, route, to);
    var next := route[0];
    assert Send(net, from, to, hops) == Arrive(net, next, to, hops);
    if |route| > 1 {
      assert net[next].kind.IsForwarder() && next != to.point;
    }
  }

  lemma {:induction false} JourneyOnRoute(net: Network, from: Point, route: seq<Point>, to: Surface, hops: nat)
    requires WellNamed(net) && IsRoute(net, from, route, to) && hops <= 255
    ensures Send(net, from, to, hops) ==
            if hops + |route| <= 255 then Journey(route, Arrived) else Journey(route[..256 - hops], HopsExceeded)
    decreases |route|
  {
    SendOnRoute(net, from, route, to, hops);
    if hops == 255 {
      assert route[..1] == [route[0]];
    } else if |route| == 1 {
      assert route == [route[0]];
    } else {
      JourneyOnRoute(net, route[0], route[1..], to, hops + 1);
      assert route == [route[0]] + route[1..];
      assert hops + |route| > 255 ==> route[..256 - hops] == [route[0]] + route[1..][..255 - hops];
    }
  }

  /**
   * Along a route of any length in any network: a fresh transport visits the whole of it and arrives iff it is at most
   * 255 stars long; otherwise the 256th star on it, be it the destination, refuses the transport.
   */
  lemma ArrivesWithinLimit(net: Network, from: Point, route: seq<Point>, to: Surface)
    requires WellNamed(net) && IsRoute(net, from, route, to)
    ensures Send(net, from, to, 0) == Journey(route, Arrived) <==> |route| <= 255
    ensures |route| > 255 ==> Send(net, from, to, 0) == Journey(route[..256], HopsExceeded)
  {
    JourneyOnRoute(net, from, route, to, 0);
  }

  // ------------------------------------------------------------------ nowhere to go

  /**
   * A transport for a star that is neither the sender nor adjacent fails for want of a forwarder iff no neighbour is of
   * a forwarding kind, and has to be searched for iff two of them are.
   */
  lemma NowhereExactly(star: StarNode, to: Surface)
    requires to.point != star.point && to.point !in star.adjacents
    ensures NextHop(star, to) == NoForwarder <==>
            forall p | p in star.adjacents :: star.adjacents[p].kind in {Central, Machine}
    ensures NextHop(star, to) == SearchNeeded <==>
            exists p, q | p in star.adjacents && q in star.adjacents && p != q ::
              star.adjacents[p].kind !in {Central, Machine} && star.adjacents[q].kind !in {Central, Machine}
  {
    var some := Forwarders(star);
    if some == {} {
      assert |some| == 0;
    } else if |some| == 1 {
      var only := OnlyOne(some);
      assert some == {only} && only in some;
    } else if |some| > 1 {
      var p :| p in some;
      assert |some - {p}| == |some| - 1;
      var q :| q in some - {p};
      assert star.adjacents[p].kind !in {Central, Machine} && star.adjacents[q].kind !in {Central, Machine};
    }
    forall p | p in star.adjacents
      ensures p in some <==> star.adjacents[p].kind !in {Central, Machine}
    {
    }
  }

  // ------------------------------------------------------------------ links that go both ways

  /** Whoever knows a star is known to it, and knows its kind. */
  ghost predicate BothWays(net: Network) {
    && WellNamed(net)
    && forall p, q | p in net && q in net[p].adjacents ::
         q in net && p in net[q].adjacents && net[p].adjacents[q].kind == net[q].kind
  }

  /** Two forwarders that know no other one pass a transport back and forth for good. */
  lemma {:induction false} BackAndForth(net: Network, a: Point, b: Point, to: Surface, hops: nat)
    requires WellNamed(net) && a in net && b in net && to.point !in {a, b} && hops < 0x1_0000
    requires NextHop(net[a], to) == HopTo(ToSurface(b)) && NextHop(net[b], to) == HopTo(ToSurface(a))
    ensures !Send(net, a, to, hops).verdict.Arrived?
    decreases Budget(hops)
  {
    if ReceptionOf(net[b], to, hops).Forwarded? {
      BackAndForth(net, b, a, to, NextHops(hops));
    }
  }

  /** One that has come from a forwarder and is passed to a forwarder was passed back. */
  lemma PassedBack(net: Network, a: Point, b: Point, to: Surface)
    requires BothWays(net) && a in net && b in net[a].adjacents && net[a].kind.IsForwarder()
    requires to.point != b && to.point !in net[b].adjacents && NextHop(net[b], to).HopTo?
    ensures NextHop(net[b], to) == HopTo(ToSurface(a))
  {
    assert a in Forwarders(net[b]);
  }

  /** A star that is not the destination of an arriving transport forwards it. */
  lemma ForwardsOn(net: Network, at: Point, to: Surface, hops: nat)
    requires WellNamed(net) && at in net && at != to.point && hops < 255
    requires Arrive(net, at, to, hops).verdict.Arrived?
    ensures net[at].kind.IsForwarder()
    ensures Arrive(net, at, to, hops) == Send(net, at, to, hops + 1).After(at)
  {
  }

  /** One that does not know the destination sends an arriving transport to its only forwarder. */
  lemma SendsToForwarder(net: Network, at: Point, to: Surface, hops: nat) returns (next: Point)
    requires WellNamed(net) && at in net && at != to.point && to.point !in net[at].adjacents && hops < 255
    requires Send(net, at, to, hops).verdict.Arrived?
    ensures next in net && next in net[at].adjacents && next != to.point
    ensures NextHop(net[at], to) == HopTo(ToSurface(next))
    ensures Send(net, at, to, hops) == Arrive(net, next, to, hops)
  {
    next := OnlyOne(Forwarders(net[at]));
    assert next in Forwarders(net[at]);
  }

  /** One that knows it sends the transport there. */
  lemma SendsHome(net: Network, at: Point, to: Surface, hops: nat)
    requires WellNamed(net) && at in net && (at == to.point || to.point in net[at].adjacents) && hops < 255
    requires Send(net, at, to, hops).verdict.Arrived?
    ensures Send(net, at, to, hops).visited == [to.point]
  {
  }

  lemma ThirdIsLast(net: Network, a: Point, to: Surface)
    requires BothWays(net) && a in net && to.point != a && to.point !in net[a].adjacents
    requires Arrive(net, a, to, 0).verdict.Arrived?
    ensures |Arrive(net, a, to, 0).visited| <= 3
  {
    ForwardsOn(net, a, to, 0);
    var b := SendsToForwarder(net, a, to, 1);
    ForwardsOn(net, b, to, 1);
    if to.point in net[b].adjacents {
      SendsHome(net, b, to, 2);
    } else {
      PassedBack(net, a, b, to);
      BackAndForth(net, b, a, to, 2);
    }
  }

  /**
   * Where links go both ways a transport that has not arrived at the third star it reaches never does: two forwarders
   * in a row have no other one beside them, or a search is needed.
   */
  lemma ArrivesWithinThree(net: Network, from: Point, to: Surface)
    requires BothWays(net) && from in net && Send(net, from, to, 0).verdict.Arrived?
    ensures |Send(net, from, to, 0).visited| <= 3
  {
    if from == to.point || to.point in net[from].adjacents {
      SendsHome(net, from, to, 0);
    } else {
      var a := SendsToForwarder(net, from, to, 0);
      if to.point in net[a].adjacents {
        ForwardsOn(net, a, to, 0);
        SendsHome(net, a, to, 1);
      } else {
        ThirdIsLast(net, a, to);
      }
    }
  }
}
