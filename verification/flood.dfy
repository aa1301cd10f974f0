/** A ripple to all stars: every star that relays it shards it to the neighbours that have not seen that copy. */
module RippleFlood {
  import opened Wrappers
  import opened Loc
  import opened StarRouting

  /**
   * A copy of the ripple, by the stars in its history in the order they were entered and, last, the star it is sent to.
   */
  type Trail = seq<Point>

  function Last(trail: Trail): Point
    requires trail != []
  {
    trail[|trail| - 1]
  }

  /** The copies a star makes: one for each neighbour that is not in the history, which by now holds the star itself. */
  ghost predicate IsShard(star: StarNode, history: Trail, copies: seq<Trail>) {
    forall trail :: multiset(copies)[trail] ==
                    if |trail| == |history| + 1 && history <= trail
                      && Last(trail) in star.adjacents && Last(trail) !in history
                    then 1 else 0
  }

  method Shard(star: StarNode, history: Trail) returns (copies: seq<Trail>)
    ensures IsShard(star, history, copies)
  {
    copies := [];
    var left := star.adjacents.Keys;
    while left != {}
      invariant left <= star.adjacents.Keys
      invariant forall trail :: multiset(copies)[trail] ==
                  if |trail| == |history| + 1 && history <= trail
                    && Last(trail) in star.adjacents.Keys - left && Last(trail) !in history
                  then 1 else 0
      decreases left
    {
      var p :| p in left;
      if p !in history {
        assert forall trail: Trail | |trail| == |history| + 1 && history <= trail && Last(trail) == p ::
               trail == history + [p];
        copies := copies + [history + [p]];
      }
      left := left - {p};
    }
  }

  /** Who passes a copy on: the star the ripple starts from, and every star of a forwarding kind. */
  predicate Relays(net: Network, trail: Trail)
    requires trail != [] && Last(trail) in net
  {
    |trail| == 1 || net[Last(trail)].kind.IsForwarder()
  }

  datatype Flood = Flood(inFlight: seq<Trail>, received: seq<Trail>)

  /** Any copy in flight may arrive next; its star may shard it in any order. */
  datatype Arrival = Arrival(index: nat, copies: seq<Trail>)

  ghost predicate Possible(net: Network, s: Flood, a: Arrival) {
    && a.index < |s.inFlight|
    && var trail := s.inFlight[a.index];
       && trail != [] && Last(trail) in net
       && if Relays(net, trail) then IsShard(net[Last(trail)], trail, a.copies) else a.copies == []
  }

  function Without(trails: seq<Trail>, i: nat): seq<Trail>
    requires i < |trails|
  {
    trails[..i] + trails[i + 1..]
  }

  function Received(s: Flood, a: Arrival): Flood
    requires a.index < |s.inFlight|
  {
    Flood(Without(s.inFlight, a.index) + a.copies, s.received + [s.inFlight[a.index]])
  }

  /** The flood a star starts, after any number of arrivals. */
  ghost function Run(net: Network, origin: Point, first: seq<Trail>, arrivals: seq<Arrival>): Option<Flood> {
    if arrivals == [] then
      if origin in net && IsShard(net[origin], [origin], first) then Some(Flood(first, [])) else None
    else
      var init, last := arrivals[..|arrivals| - 1], arrivals[|arrivals| - 1];
      match Run(net, origin, first, init)
      case None => None
      case Some(s) => if Possible(net, s, last) then Some(Received(s, last)) else None
  }

  // ------------------------------------------------------------------ simple trails

  ghost predicate ClosedNet(net: Network) {
    forall p, q | p in net && q in net[p].adjacents :: q in net
  }

  /** Along links, through relaying stars, never twice to the same star. */
  ghost predicate IsSimple(net: Network, origin: Point, trail: Trail) {
    && |trail| >= 2 && trail[0] == origin
    && (forall i | 0 <= i < |trail| :: trail[i] in net)
    && (forall i, j | 0 <= i < j < |trail| :: trail[i] != trail[j])
    && (forall i | 0 <= i < |trail| - 1 :: trail[i + 1] in net[trail[i]].adjacents)
    && (forall i | 1 <= i < |trail| - 1 :: net[trail[i]].kind.IsForwarder())
  }

  lemma CopiesAreSimple(net: Network, origin: Point, history: Trail, copies: seq<Trail>)
    requires ClosedNet(net) && history != [] && Last(history) in net && Relays(net, history)
    requires history == [origin] || IsSimple(net, origin, history)
    requires IsShard(net[Last(history)], history, copies)
    ensures forall trail | trail in copies :: IsSimple(net, origin, trail)
  {
    forall trail | trail in copies
      ensures IsSimple(net, origin, trail)
    {
      assert multiset(copies)[trail] > 0;
      assert trail[..|history|] == history;
    }
  }

  lemma {:induction false} EveryCopyIsSimple(net: Network, origin: Point, first: seq<Trail>, arrivals: seq<Arrival>)
    requires ClosedNet(net) && Run(net, origin, first, arrivals).Some?
    ensures var s := Run(net, origin, first, arrivals).value;
            forall trail | trail in s.inFlight || trail in s.received :: IsSimple(net, origin, trail)
  {
    if arrivals == [] {
      CopiesAreSimple(net, origin, [origin], first);
    } else {
      var init, last := arrivals[..|arrivals| - 1], arrivals[|arrivals| - 1];
      EveryCopyIsSimple(net, origin, first, init);
      var s := Run(net, origin, first, init).value;
      var trail := s.inFlight[last.index];
      if Relays(net, trail) {
        CopiesAreSimple(net, origin, trail, last.copies);
      }
    }
  }

  // ------------------------------------------------------------------ each simple trail once

  /** How many of the trails lead, possibly in further hops, to this one. */
  ghost function Leading(trails: seq<Trail>, to: Trail): nat {
    if trails == [] then 0
    else Leading(trails[..|trails| - 1], to) + if trails[|trails| - 1] <= to then 1 else 0
  }

  lemma {:induction false} LeadingConcat(a: seq<Trail>, b: seq<Trail>, to: Trail)
    ensures Leading(a + b, to) == Leading(a, to) + Leading(b, to)
    decreases |b|
  {
    if b == [] {
      assert a + b == a;
    } else {
      LeadingConcat(a, b[..|b| - 1], to);
      assert (a + b)[..|a + b| - 1] == a + b[..|b| - 1];
    }
  }

  lemma LeadingWithout(trails: seq<Trail>, i: nat, to: Trail)
    requires i < |trails|
    ensures Leading(trails, to) == Leading(Without(trails, i), to) + if trails[i] <= to then 1 else 0
  {
    var a, b := trails[..i], trails[i + 1..];
    assert trails == a + [trails[i]] + b;
    LeadingConcat(a, b, to);
    LeadingConcat(a + [trails[i]], b, to);
    LeadingConcat(a, [trails[i]], to);
    assert [trails[i]][..0] == [];
  }

  /** Only the copy for the next star on the way leads there. */
  lemma {:induction false} LeadingIsMembership(copies: seq<Trail>, n: nat, to: Trail)
    requires n <= |to| && forall trail | trail in copies :: |trail| == n
    ensures Leading(copies, to) == multiset(copies)[to[..n]]
  {
    if copies != [] {
      var init, last := copies[..|copies| - 1], copies[|copies| - 1];
      LeadingIsMembership(init, n, to);
      assert copies == init + [last];
      assert last <= to <==> last == to[..n];
    }
  }

  lemma {:induction false} TooLongToLead(copies: seq<Trail>, to: Trail)
    requires forall trail | trail in copies :: |trail| > |to|
    ensures Leading(copies, to) == 0
  {
    if copies != [] {
      TooLongToLead(copies[..|copies| - 1], to);
    }
  }

  lemma CopiesLength(star: StarNode, history: Trail, copies: seq<Trail>)
    requires IsShard(star, history, copies)
    ensures forall trail | trail in copies :: |trail| == |history| + 1 && history <= trail
  {
    forall trail | trail in copies
      ensures |trail| == |history| + 1 && history <= trail
    {
      assert multiset(copies)[trail] > 0;
    }
  }

  /** A shard hands the way to any longer simple trail on to exactly one copy, and opens no way to any other trail. */
  lemma ShardLeads(net: Network, origin: Point, history: Trail, copies: seq<Trail>, to: Trail)
    requires IsSimple(net, origin, to) && history != [] && Last(history) in net
    requires IsShard(net[Last(history)], history, copies)
    ensures Leading(copies, to) == if history < to then 1 else 0
  {
    var n := |history| + 1;
    CopiesLength(net[Last(history)], history, copies);
    if |to| < n {
      TooLongToLead(copies, to);
    } else {
      LeadingIsMembership(copies, n, to);
      if history < to {
        assert to[..n][..n - 1] == history;
        assert to[n - 1] in net[to[n - 2]].adjacents;
        assert Last(to[..n]) == to[n - 1] && Last(history) == to[n - 2];
      } else {
        assert history <= to[..n] ==> history <= to;
      }
    }
  }

  lemma OnTheWayIsRelayed(net: Network, origin: Point, trail: Trail, to: Trail)
    requires IsSimple(net, origin, to) && trail < to && trail != []
    ensures Last(trail) in net && Relays(net, trail)
  {
    assert Last(trail) == to[|trail| - 1];
  }

  lemma ArrivalKeepsWays(net: Network, origin: Point, s: Flood, a: Arrival, to: Trail)
    requires IsSimple(net, origin, to) && Possible(net, s, a) && IsSimple(net, origin, s.inFlight[a.index])
    ensures var t := Received(s, a);
            Leading(t.inFlight, to) + multiset(t.received)[to] == Leading(s.inFlight, to) + multiset(s.received)[to]
  {
    var trail, t := s.inFlight[a.index], Received(s, a);
    LeadingWithout(s.inFlight, a.index, to);
    LeadingConcat(Without(s.inFlight, a.index), a.copies, to);
    if trail < to {
      OnTheWayIsRelayed(net, origin, trail, to);
    }
    if Relays(net, trail) {
      ShardLeads(net, origin, trail, a.copies, to);
    }
    assert trail <= to <==> trail < to || trail == to;
  }

  /**
   * For every simple trail, in every run: either exactly one copy is on the way to it, or it has been received exactly
   * once.
   */
  lemma {:induction false} EachTrailOnce(net: Network, origin: Point, first: seq<Trail>, arrivals: seq<Arrival>,
                                         to: Trail)
    requires ClosedNet(net) && Run(net, origin, first, arrivals).Some? && IsSimple(net, origin, to)
    ensures var s := Run(net, origin, first, arrivals).value;
            Leading(s.inFlight, to) + multiset(s.received)[to] == 1
  {
    if arrivals == [] {
      ShardLeads(net, origin, [origin], first, to);
      assert [origin] <= to;
    } else {
      var init, last := arrivals[..|arrivals| - 1], arrivals[|arrivals| - 1];
      EachTrailOnce(net, origin, first, init, to);
      EveryCopyIsSimple(net, origin, first, init);
      ArrivalKeepsWays(net, origin, Run(net, origin, first, init).value, last, to);
    }
  }

  // ------------------------------------------------------------------ the flood halts

  /** Most copies that can come of one that has yet to see `k` stars. */
  function Weight(k: nat): nat {
    if k == 0 then 1 else 1 + k * Weight(k - 1)
  }

  function Unseen(net: Network, trail: Trail): nat {
    if |trail| <= |net| then |net| - |trail| else 0
  }

  function TotalWeight(net: Network, trails: seq<Trail>): nat {
    if trails == [] then 0
    else TotalWeight(net, trails[..|trails| - 1]) + Weight(Unseen(net, trails[|trails| - 1]))
  }

  lemma {:induction false} WeightConcat(net: Network, a: seq<Trail>, b: seq<Trail>)
    ensures TotalWeight(net, a + b) == TotalWeight(net, a) + TotalWeight(net, b)
    decreases |b|
  {
    if b == [] {
      assert a + b == a;
    } else {
      WeightConcat(net, a, b[..|b| - 1]);
      assert (a + b)[..|a + b| - 1] == a + b[..|b| - 1];
    }
  }

  lemma WeightWithout(net: Network, trails: seq<Trail>, i: nat)
    requires i < |trails|
    ensures TotalWeight(net, trails) == TotalWeight(net, Without(trails, i)) + Weight(Unseen(net, trails[i]))
  {
    var a, b := trails[..i], trails[i + 1..];
    assert trails == a + [trails[i]] + b;
    WeightConcat(net, a, b);
    WeightConcat(net, a + [trails[i]], b);
    WeightConcat(net, a, [trails[i]]);
    assert [trails[i]][..0] == [];
  }

  function Elements(trail: Trail): set<Point> {
    set p | p in trail
  }

  lemma {:induction false} DistinctSize(trail: Trail)
    requires forall i, j | 0 <= i < j < |trail| :: trail[i] != trail[j]
    ensures |Elements(trail)| == |trail|
  {
    if trail != [] {
      var init, last := trail[..|trail| - 1], trail[|trail| - 1];
      DistinctSize(init);
      assert trail == init + [last];
      assert Elements(trail) == Elements(init) + {last};
    }
  }

  lemma SubsetSize(a: set<Point>, b: set<Point>)
    requires a <= b
    ensures |a| <= |b|
  {
    assert b == a + (b - a);
  }

  lemma OnlyOnce(copies: seq<Trail>, i: nat, j: nat)
    requires i < j < |copies| && multiset(copies)[copies[i]] <= 1
    ensures copies[i] != copies[j]
  {
    assert copies == copies[..i] + [copies[i]] + copies[i + 1..j] + [copies[j]] + copies[j + 1..];
  }

  /** A list without repetitions drawn from a set is no longer than the set. */
  lemma DistinctWithin(trail: Trail, points: set<Point>)
    requires forall i, j | 0 <= i < j < |trail| :: trail[i] != trail[j]
    requires forall i | 0 <= i < |trail| :: trail[i] in points
    ensures |trail| <= |points|
  {
    DistinctSize(trail);
    SubsetSize(Elements(trail), points);
  }

  function Ends(copies: seq<Trail>): seq<Point>
    requires forall i | 0 <= i < |copies| :: copies[i] != []
  {
    seq(|copies|, i requires 0 <= i < |copies| => Last(copies[i]))
  }

  /** The copies of a shard go to different stars, none of them in the history. */
  lemma CopiesGoApart(star: StarNode, history: Trail, copies: seq<Trail>)
    requires IsShard(star, history, copies)
    ensures forall i | 0 <= i < |copies| ::
            copies[i] != [] && Last(copies[i]) in star.adjacents.Keys - Elements(history)
    ensures forall i, j | 0 <= i < j < |copies| :: Ends(copies)[i] != Ends(copies)[j]
  {
    CopiesLength(star, history, copies);
    forall i | 0 <= i < |copies|
      ensures copies[i] == history + [Last(copies[i])] && Last(copies[i]) in star.adjacents.Keys - Elements(history)
    {
      assert multiset(copies)[copies[i]] > 0;
      assert copies[i][..|history|] == history;
    }
    forall i, j | 0 <= i < j < |copies|
      ensures Ends(copies)[i] != Ends(copies)[j]
    {
      OnlyOnce(copies, i, j);
    }
  }

  lemma CopiesFew(net: Network, history: Trail, copies: seq<Trail>)
    requires ClosedNet(net) && history != [] && (forall i | 0 <= i < |history| :: history[i] in net)
    requires forall i, j | 0 <= i < j < |history| :: history[i] != history[j]
    requires IsShard(net[Last(history)], history, copies)
    ensures |history| <= |net| && |copies| <= |net| - |history|
  {
    var seen := Elements(history);
    DistinctSize(history);
    assert net.Keys == seen + (net.Keys - seen);
    CopiesGoApart(net[Last(history)], history, copies);
    assert forall i | 0 <= i < |copies| :: Ends(copies)[i] in net.Keys - seen;
    DistinctWithin(Ends(copies), net.Keys - seen);
  }

  lemma {:induction false} WeightOfCopies(net: Network, copies: seq<Trail>, k: nat)
    requires forall trail | trail in copies :: Unseen(net, trail) == k
    ensures TotalWeight(net, copies) == |copies| * Weight(k)
  {
    if copies != [] {
      WeightOfCopies(net, copies[..|copies| - 1], k);
      assert copies[|copies| - 1] in copies;
    }
  }

  /** The copies of a shard weigh less than the copy they come from. */
  lemma ShardWeighsLess(net: Network, origin: Point, history: Trail, copies: seq<Trail>)
    requires ClosedNet(net) && (history == [origin] || IsSimple(net, origin, history))
    requires history != [] && Last(history) in net && IsShard(net[Last(history)], history, copies)
    ensures TotalWeight(net, copies) < Weight(Unseen(net, history))
  {
    CopiesFew(net, history, copies);
    CopiesLength(net[Last(history)], history, copies);
    if copies != [] {
      var k := Unseen(net, history);
      WeightOfCopies(net, copies, k - 1);
      MoreWeighsMore(|copies|, k, Weight(k - 1));
    }
  }

  lemma MoreWeighsMore(a: nat, b: nat, w: nat)
    requires a <= b
    ensures a * w <= b * w
  {
  }

  lemma ArrivalWeighsLess(net: Network, origin: Point, s: Flood, a: Arrival)
    requires ClosedNet(net) && Possible(net, s, a) && IsSimple(net, origin, s.inFlight[a.index])
    ensures TotalWeight(net, Received(s, a).inFlight) < TotalWeight(net, s.inFlight)
  {
    var trail := s.inFlight[a.index];
    WeightWithout(net, s.inFlight, a.index);
    WeightConcat(net, Without(s.inFlight, a.index), a.copies);
    if Relays(net, trail) {
      ShardWeighsLess(net, origin, trail, a.copies);
    }
  }

  /** However the copies are scheduled, a flood over `n` stars is over after fewer than `Weight(n - 1)` arrivals. */
  lemma {:induction false} FloodHalts(net: Network, origin: Point, first: seq<Trail>, arrivals: seq<Arrival>)
    requires ClosedNet(net) && Run(net, origin, first, arrivals).Some?
    ensures |arrivals| + TotalWeight(net, Run(net, origin, first, arrivals).value.inFlight) <
            Weight(Unseen(net, [origin]))
  {
    if arrivals == [] {
      ShardWeighsLess(net, origin, [origin], first);
    } else {
      var init, last := arrivals[..|arrivals| - 1], arrivals[|arrivals| - 1];
      FloodHalts(net, origin, first, init);
      EveryCopyIsSimple(net, origin, first, init);
      ArrivalWeighsLess(net, origin, Run(net, origin, first, init).value, last);
    }
  }

  /** When no copy is left in flight, those received are exactly the simple trails, each of them once. */
  lemma ExactlyTheSimpleTrails(net: Network, origin: Point, first: seq<Trail>, arrivals: seq<Arrival>)
    requires ClosedNet(net) && Run(net, origin, first, arrivals).Some?
    requires Run(net, origin, first, arrivals).value.inFlight == []
    ensures forall trail :: multiset(Run(net, origin, first, arrivals).value.received)[trail] ==
                            if IsSimple(net, origin, trail) then 1 else 0
  {
    var received := Run(net, origin, first, arrivals).value.received;
    EveryCopyIsSimple(net, origin, first, arrivals);
    forall trail
      ensures multiset(received)[trail] == if IsSimple(net, origin, trail) then 1 else 0
    {
      if IsSimple(net, origin, trail) {
        EachTrailOnce(net, origin, first, arrivals, trail);
      } else {
        assert trail !in received;
      }
    }
  }

  /** Copies arrive one after the other, in no particular order, until none is left. */
  method RunFlood(net: Network, origin: Point)
      returns (received: seq<Trail>, ghost first: seq<Trail>, ghost arrivals: seq<Arrival>)
    requires ClosedNet(net) && origin in net
    ensures Run(net, origin, first, arrivals) == Some(Flood([], received))
    ensures forall trail :: multiset(received)[trail] == if IsSimple(net, origin, trail) then 1 else 0
  {
    var inFlight := Shard(net[origin], [origin]);
    received, first, arrivals := [], inFlight, [];
    while inFlight != []
      invariant Run(net, origin, first, arrivals) == Some(Flood(inFlight, received))
      decreases TotalWeight(net, inFlight)
    {
      var i: nat :| i < |inFlight|;
      EveryCopyIsSimple(net, origin, first, arrivals);
      var trail, copies := inFlight[i], [];
      assert trail in inFlight;
      if Relays(net, trail) {
        copies := Shard(net[Last(trail)], trail);
      }
      ghost var arrival := Arrival(i, copies);
      ArrivalWeighsLess(net, origin, Flood(inFlight, received), arrival);
      assert (arrivals + [arrival])[..|arrivals|] == arrivals;
      arrivals := arrivals + [arrival];
      received := received + [trail];
      inFlight := Without(inFlight, i) + copies;
    }
    ExactlyTheSimpleTrails(net, origin, first, arrivals);
  }

  // ------------------------------------------------------------------ who is reached

  /** Along links and through forwarding stars, possibly in circles. */
  ghost predicate IsWay(net: Network, way: seq<Point>) {
    && |way| >= 2
    && (forall i | 0 <= i < |way| :: way[i] in net)
    && (forall i | 0 <= i < |way| - 1 :: way[i + 1] in net[way[i]].adjacents)
    && (forall i | 1 <= i < |way| - 1 :: net[way[i]].kind.IsForwarder())
  }

  /** Cutting the circles out of a way leaves a simple trail. */
  lemma {:induction false} CutCircles(net: Network, way: seq<Point>) returns (trail: Trail)
    requires IsWay(net, way) && way[0] != Last(way)
    ensures IsSimple(net, way[0], trail) && Last(trail) == Last(way)
    decreases |way|
  {
    if i, j :| 0 <= i < j < |way| && way[i] == way[j] {
      var cut := way[..i] + way[j..];
      assert forall k | 0 <= k < |cut| :: cut[k] == if k < i then way[k] else way[k + j - i];
      trail := CutCircles(net, cut);
    } else {
      trail := way;
    }
  }

  /** A flood that is over has reached exactly the stars that forwarding stars connect with its origin. */
  lemma FloodReachesConnected(net: Network, origin: Point, first: seq<Trail>, arrivals: seq<Arrival>, star: Point)
    requires ClosedNet(net) && Run(net, origin, first, arrivals).Some? && star != origin
    requires Run(net, origin, first, arrivals).value.inFlight == []
    ensures (exists trail ::
               trail in Run(net, origin, first, arrivals).value.received && trail != [] && Last(trail) == star)
            <==> (exists way :: IsWay(net, way) && way[0] == origin && Last(way) == star)
  {
    var received := Run(net, origin, first, arrivals).value.received;
    EveryCopyIsSimple(net, origin, first, arrivals);
    if trail :| trail in received && trail != [] && Last(trail) == star {
      assert IsWay(net, trail);
    }
    if way :| IsWay(net, way) && way[0] == origin && Last(way) == star {
      var trail := CutCircles(net, way);
      EachTrailOnce(net, origin, first, arrivals, trail);
      assert trail in received;
    }
  }
}
