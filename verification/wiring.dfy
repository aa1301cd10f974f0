/** The interchange a machine builds for each of its stars. */
module StarWiring {
  import opened Wrappers
  import opened Loc
  import opened Transforms
  import L = HyperlaneSpec
  import opened InterchangeSpec
  import opened InterchangeActor
  import opened StarRouting

  function AtGravity(point: Point): Surface {
    ToSurface(point).WithLayer(Gravity)
  }

  const TO_GRAVITY: seq<Transform> := [LayerTransform(Gravity)]

  function LinkTo(con: StarCon): Move {
    Add(AtGravity(con.stub.key), HyperUser, [])
  }

  /** First the star's own hyperway, then the interchange becomes singular to it, then one hyperway a connection. */
  function SetupMoves(template: StarTemplate): seq<Move> {
    [Add(AtGravity(template.key), HyperUser, TO_GRAVITY), SetSingular(AtGravity(template.key))]
    + seq(|template.connections|, i requires 0 <= i < |template.connections| => LinkTo(template.connections[i]))
  }

  predicate IsSetup(move: Move) {
    move.Add? || move.SetSingular?
  }

  /** The setup moves of a run, in order; everything else may happen in between. */
  function SetupOf(moves: seq<Move>): seq<Move> {
    if moves == [] then []
    else
      var last := moves[|moves| - 1];
      SetupOf(moves[..|moves| - 1]) + if IsSetup(last) then [last] else []
  }

  predicate NobodyLeaves(moves: seq<Move>) {
    forall i | 0 <= i < |moves| :: !moves[i].AskRemove?
  }

  /** The hyperways, without their lanes, after a list of setup moves. */
  function PlannedWays(setup: seq<Move>): seq<Way> {
    if setup == [] then []
    else
      var init, last := setup[..|setup| - 1], setup[|setup| - 1];
      PlannedWays(init) +
      if last.Add? then
        [Way(last.remote, last.agent, last.readdressing, PlannedTarget(init), L.EMPTY, L.EMPTY, 0)]
      else []
  }

  function PlannedTarget(setup: seq<Move>): Option<Surface> {
    if setup == [] then None
    else if setup[|setup| - 1].SetSingular? then Some(setup[|setup| - 1].to)
    else PlannedTarget(setup[..|setup| - 1])
  }

  function Bare(way: Way): Way {
    way.(inbound := L.EMPTY, outbound := L.EMPTY, taken := 0)
  }

  /** Every hyperway is as planned, and is in the table or about to be. */
  ghost predicate AsPlanned(s: Interchange, setup: seq<Move>) {
    && |s.ways| == |PlannedWays(setup)|
    && (forall i | 0 <= i < |s.ways| :: Bare(s.ways[i]) == PlannedWays(setup)[i])
    && s.singularTo == PlannedTarget(setup)
    && (forall i | 0 <= i < |s.ways| :: s.ways[i].remote in s.hyperways || Internal(i) in s.calls)
    && (forall i | 0 <= i < |s.calls| :: !s.calls[i].Remove?)
  }

  lemma PlanGrows(s: Interchange, move: Move, setup: seq<Move>)
    requires InterchangeSpec.Ok(s) && Possible(s, move) && IsSetup(move) && AsPlanned(s, setup)
    ensures AsPlanned(Moved(s, move), setup + [move])
  {
    assert (setup + [move])[..|setup|] == setup;
    var t := Moved(s, move);
    forall i | 0 <= i < |t.ways|
      ensures t.ways[i].remote in t.hyperways || Internal(i) in t.calls
    {
      if i < |s.ways| {
        assert Internal(i) in s.calls ==> Internal(i) in t.calls;
      }
    }
  }

  /** Handling a call that removes nothing: lanes aside the ways stay, the table grows, a registration is in it. */
  lemma HandledStays(s: Interchange, call: Call, timeout: bool)
    requires InterchangeSpec.Ok(s) && CanHandle(s, call, timeout) && !call.Remove?
    ensures var t := Handled(s, call, timeout);
            && |t.ways| == |s.ways| && (forall i | 0 <= i < |s.ways| :: Bare(t.ways[i]) == Bare(s.ways[i]))
            && t.calls == s.calls && t.singularTo == s.singularTo
            && s.hyperways.Keys <= t.hyperways.Keys
            && (call.Internal? ==> s.ways[call.way].remote in t.hyperways)
  {
  }

  lemma HandlingRegisters(s: Interchange, timeout: bool, setup: seq<Move>)
    requires InterchangeSpec.Ok(s) && Possible(s, Handle(timeout)) && AsPlanned(s, setup)
    ensures AsPlanned(Moved(s, Handle(timeout)), setup)
  {
    var call, rest := s.calls[0], s.(calls := s.calls[1..]);
    FewerCallsOk(s);
    HandledStays(rest, call, timeout);
    var t := Handled(rest, call, timeout);
    assert s.calls == [call] + rest.calls;
    forall i | 0 <= i < |t.ways|
      ensures t.ways[i].remote in t.hyperways || Internal(i) in t.calls
      ensures Bare(t.ways[i]) == PlannedWays(setup)[i]
    {
      assert Bare(t.ways[i]) == Bare(s.ways[i]);
      assert s.ways[i].remote in s.hyperways || Internal(i) in s.calls;
    }
  }

  lemma OtherMovesKeepPlan(s: Interchange, move: Move, setup: seq<Move>)
    requires InterchangeSpec.Ok(s) && Possible(s, move) && !IsSetup(move)
             && !move.AskRemove? && !move.Handle? && AsPlanned(s, setup)
    ensures AsPlanned(Moved(s, move), setup)
  {
    var t := Moved(s, move);
    forall i | 0 <= i < |t.ways|
      ensures t.ways[i].remote in t.hyperways || Internal(i) in t.calls
      ensures Bare(t.ways[i]) == Bare(s.ways[i])
    {
      assert s.ways[i].remote in s.hyperways || Internal(i) in s.calls;
      assert Internal(i) in s.calls ==> Internal(i) in t.calls;
    }
  }

  lemma {:induction false} RunsFollowThePlan(moves: seq<Move>)
    requires Play(EMPTY_INTERCHANGE, moves).Some? && NobodyLeaves(moves)
    ensures AsPlanned(Play(EMPTY_INTERCHANGE, moves).value, SetupOf(moves))
  {
    if moves != [] {
      var init, last := moves[..|moves| - 1], moves[|moves| - 1];
      RunsFollowThePlan(init);
      PlayOk(init);
      var s := Play(EMPTY_INTERCHANGE, init).value;
      if IsSetup(last) {
        PlanGrows(s, last, SetupOf(init));
      } else if last.Handle? {
        assert SetupOf(moves) == SetupOf(init) + [] == SetupOf(init);
        HandlingRegisters(s, last.timeout, SetupOf(init));
      } else {
        assert SetupOf(moves) == SetupOf(init) + [] == SetupOf(init);
        OtherMovesKeepPlan(s, last, SetupOf(init));
      }
    }
  }

  // ------------------------------------------------------------------ the interchange of one star

  /** The star's own way is readdressed to gravity; the others carry the star as their one target. */
  function StarWays(template: StarTemplate): seq<Way> {
    var star := AtGravity(template.key);
    [Way(star, HyperUser, TO_GRAVITY, None, L.EMPTY, L.EMPTY, 0)]
    + seq(|template.connections|, i requires 0 <= i < |template.connections| =>
            Way(AtGravity(template.connections[i].stub.key), HyperUser, [], Some(star), L.EMPTY, L.EMPTY, 0))
  }

  lemma {:induction false} StarPlan(template: StarTemplate)
    ensures PlannedWays(SetupMoves(template)) == StarWays(template)
    ensures PlannedTarget(SetupMoves(template)) == Some(AtGravity(template.key))
    decreases |template.connections|
  {
    var n, moves := |template.connections|, SetupMoves(template);
    if n == 0 {
      assert moves[..1][..0] == [];
      assert PlannedTarget(moves[..1]) == None;
      assert PlannedWays(moves[..1]) == StarWays(template);
    } else {
      var shorter := template.(connections := template.connections[..n - 1]);
      StarPlan(shorter);
      assert moves[..n + 1] == SetupMoves(shorter);
    }
  }

  ghost predicate AllRegistered(s: Interchange) {
    forall i | 0 <= i < |s.calls| :: !s.calls[i].Internal?
  }

  /** With every registration handled, the table holds the planned hyperways and nothing else. */
  lemma KeyedByPlan(moves: seq<Move>)
    requires Play(EMPTY_INTERCHANGE, moves).Some? && NobodyLeaves(moves)
    requires AllRegistered(Play(EMPTY_INTERCHANGE, moves).value)
    ensures Play(EMPTY_INTERCHANGE, moves).value.hyperways.Keys == Remotes(PlannedWays(SetupOf(moves)))
  {
    var s, plan := Play(EMPTY_INTERCHANGE, moves).value, PlannedWays(SetupOf(moves));
    PlayOk(moves);
    RunsFollowThePlan(moves);
    forall i | 0 <= i < |plan|
      ensures s.ways[i].remote == plan[i].remote && plan[i].remote in s.hyperways
    {
      assert Bare(s.ways[i]) == plan[i];
      assert Internal(i) !in s.calls;
    }
    forall surface | surface in s.hyperways
      ensures exists way :: way in plan && way.remote == surface
    {
      assert plan[s.hyperways[surface]] in plan;
    }
  }

  function Remotes(ways: seq<Way>): set<Surface> {
    set way | way in ways :: way.remote
  }

  function AllAtGravity(points: set<Point>): set<Surface> {
    set point | point in points :: AtGravity(point)
  }

  lemma {:induction false} StarWaysRemotes(template: StarTemplate)
    ensures Remotes(StarWays(template)) == {AtGravity(template.key)} + AllAtGravity(StarOf(template).adjacents.Keys)
    decreases |template.connections|
  {
    var n := |template.connections|;
    if n > 0 {
      var shorter := template.(connections := template.connections[..n - 1]);
      StarWaysRemotes(shorter);
      var last := template.connections[n - 1].stub.key;
      assert StarWays(template) == StarWays(shorter) + [StarWays(template)[n]];
      assert Remotes(StarWays(template)) == Remotes(StarWays(shorter)) + {AtGravity(last)};
      assert StarOf(template).adjacents.Keys == StarOf(shorter).adjacents.Keys + {last};
      assert AllAtGravity(StarOf(template).adjacents.Keys) ==
             AllAtGravity(StarOf(shorter).adjacents.Keys) + {AtGravity(last)};
    }
  }

  /**
   * Whatever else has happened by then: once the hyperways of a star are registered, its interchange is keyed, at the
   * gravity layer, by the star itself and by everything the star counts as adjacent.
   */
  lemma KeyedBySelfAndAdjacents(template: StarTemplate, moves: seq<Move>)
    requires Play(EMPTY_INTERCHANGE, moves).Some? && NobodyLeaves(moves)
    requires SetupOf(moves) == SetupMoves(template) && AllRegistered(Play(EMPTY_INTERCHANGE, moves).value)
    ensures Play(EMPTY_INTERCHANGE, moves).value.hyperways.Keys ==
            {AtGravity(template.key)} + AllAtGravity(StarOf(template).adjacents.Keys)
  {
    KeyedByPlan(moves);
    StarPlan(template);
    StarWaysRemotes(template);
  }

  /** A hop of a star: a wave addressed where its routing sends a transport for `to`. */
  ghost predicate IsHop(template: StarTemplate, to: Surface, wave: Wave) {
    NextHop(StarOf(template), to).HopTo? && wave.to == Single(NextHop(StarOf(template), to).surface)
  }

  ghost predicate IsSomeHop(template: StarTemplate, wave: Wave) {
    exists to :: IsHop(template, to, wave)
  }

  /** At the gravity layer a hop names the star or a neighbour, unless it is a neighbour under a topic. */
  lemma HopLeadsToNeighbour(template: StarTemplate, to: Surface)
    requires NextHop(StarOf(template), to).HopTo?
    ensures NextHop(StarOf(template), to).surface.WithLayer(Gravity) in
              {AtGravity(template.key)} + AllAtGravity(StarOf(template).adjacents.Keys)
            <==> to.topic.NoTopic? || to.point == template.key || to.point !in StarOf(template).adjacents
  {
    var star, surface := StarOf(template), NextHop(StarOf(template), to).surface;
    if to.point != star.point && to.point !in star.adjacents {
      assert surface.point in Forwarders(star);
    }
    assert surface.WithLayer(Gravity) == AtGravity(surface.point) <==> surface.topic.NoTopic?;
  }

  /** What the star's own inbound lane hands out is one of the hops it was sent, moved to the gravity layer. */
  lemma OwnLaneMovesToGravity(template: StarTemplate, moves: seq<Move>, k: nat) returns (j: nat, to: Surface)
    requires Play(EMPTY_INTERCHANGE, moves).Some? && NobodyLeaves(moves) && SetupOf(moves) == SetupMoves(template)
    requires var s := Play(EMPTY_INTERCHANGE, moves).value;
             && |s.ways| > 0 && k < |s.ways[0].inbound.history.handed|
             && forall wave | wave in s.ways[0].inbound.history.accepted :: IsSomeHop(template, wave)
    ensures var history := Play(EMPTY_INTERCHANGE, moves).value.ways[0].inbound.history;
            && j < |history.accepted| && history.accepted[j].id == history.handed[k].wave.id
            && IsHop(template, to, history.accepted[j])
            && history.handed[k].wave.to == Single(NextHop(StarOf(template), to).surface.WithLayer(Gravity))
  {
    var s := Play(EMPTY_INTERCHANGE, moves).value;
    PlayOk(moves);
    RunsFollowThePlan(moves);
    StarPlan(template);
    assert WayOk(s, 0) && Bare(s.ways[0]) == StarWays(template)[0];
    var primers := [FromTransform(AtGravity(template.key)), AgentTransform(HyperUser), LayerTransform(Gravity)];
    assert s.ways[0].Primers() == primers;
    j := SettledHanded(s.ways[0].inbound, primers, k);
    var wave := s.ways[0].inbound.history.accepted[j];
    assert wave in s.ways[0].inbound.history.accepted;
    to :| IsHop(template, to, wave);
    LastReaddresses(primers, wave, Gravity);
  }

  /**
   * Whatever hops a star sends to its interchange, each comes out of the star's own inbound lane addressed to a
   * registered hyperway, namely that of the hop's star. The one exception is a neighbour addressed under a topic.
   */
  lemma HopsFindTheirHyperway(template: StarTemplate, moves: seq<Move>, k: nat) returns (j: nat, to: Surface)
    requires Play(EMPTY_INTERCHANGE, moves).Some? && NobodyLeaves(moves)
    requires SetupOf(moves) == SetupMoves(template) && AllRegistered(Play(EMPTY_INTERCHANGE, moves).value)
    requires var s := Play(EMPTY_INTERCHANGE, moves).value;
             && |s.ways| > 0 && k < |s.ways[0].inbound.history.handed|
             && forall wave | wave in s.ways[0].inbound.history.accepted :: IsSomeHop(template, wave)
    ensures var s := Play(EMPTY_INTERCHANGE, moves).value;
            var sent, wave := s.ways[0].inbound.history.accepted, s.ways[0].inbound.history.handed[k].wave;
            && j < |sent| && sent[j].id == wave.id && IsHop(template, to, sent[j])
            && var hop := NextHop(StarOf(template), to).surface.WithLayer(Gravity);
            && wave.to == Single(hop)
            && (hop in s.hyperways <==>
                  to.topic.NoTopic? || to.point == template.key || to.point !in StarOf(template).adjacents)
  {
    j, to := OwnLaneMovesToGravity(template, moves, k);
    KeyedBySelfAndAdjacents(template, moves);
    HopLeadsToNeighbour(template, to);
  }

  lemma LastReaddresses(primers: seq<Transform>, wave: Wave, layer: Layer)
    requires |primers| == 3 && primers[0].FromTransform?
             && primers[1].AgentTransform? && primers[2] == LayerTransform(layer)
    requires wave.to.Single?
    ensures FilterAll(primers, wave).Some?
    ensures FilterAll(primers, wave).value.to == Single(wave.to.surface.WithLayer(layer))
  {
    var stamped := wave.(from := primers[0].from);
    assert primers[..1][..0] == [] && primers[..2][..1] == primers[..1];
    assert FilterAll(primers[..1], wave) == Some(stamped);
    assert FilterAll(primers[..2], wave) == Some(stamped.(agent := primers[1].agent));
  }

  /** What a neighbour sends in goes to the star and to nobody else, under that neighbour's name. */
  lemma NeighboursReachOnlyTheStar(template: StarTemplate, moves: seq<Move>, out: nat, i: nat)
    requires Play(EMPTY_INTERCHANGE, moves).Some? && NobodyLeaves(moves) && SetupOf(moves) == SetupMoves(template)
    requires var s := Play(EMPTY_INTERCHANGE, moves).value;
             out < |s.ways| && i < |s.ways[out].outbound.history.handed|
    ensures var s := Play(EMPTY_INTERCHANGE, moves).value;
            var wave := s.ways[out].outbound.history.handed[i].wave;
            wave.id in s.entered ==>
              var through := s.entered[wave.id];
              && through < |StarWays(template)|
              && wave.from == StarWays(template)[through].remote && wave.agent == HyperUser
              && (through > 0 ==> wave.to == Single(AtGravity(template.key)))
  {
    EndToEnd(moves, out, i);
    RunsFollowThePlan(moves);
    StarPlan(template);
    var s := Play(EMPTY_INTERCHANGE, moves).value;
    forall through | 0 <= through < |s.ways|
      ensures Bare(s.ways[through]) == StarWays(template)[through]
    {
    }
  }

  /** By whatever lane a hop of the star leaves, it is the lane of that hop's star. */
  lemma HopLeavesByItsLane(template: StarTemplate, moves: seq<Move>, out: nat, i: nat) returns (k: nat, to: Surface)
    requires Play(EMPTY_INTERCHANGE, moves).Some? && NobodyLeaves(moves) && SetupOf(moves) == SetupMoves(template)
    requires var s := Play(EMPTY_INTERCHANGE, moves).value;
             && |s.ways| > 0 && (forall wave | wave in s.ways[0].inbound.history.accepted :: IsSomeHop(template, wave))
             && out < |s.ways| && i < |s.ways[out].outbound.history.handed|
             && var id := s.ways[out].outbound.history.handed[i].wave.id; id in s.entered && s.entered[id] == 0
    ensures var s := Play(EMPTY_INTERCHANGE, moves).value;
            var sent, wave := s.ways[0].inbound.history.accepted, s.ways[out].outbound.history.handed[i].wave;
            && k < |sent| && sent[k].id == wave.id && IsHop(template, to, sent[k])
            && s.ways[out].remote == NextHop(StarOf(template), to).surface.WithLayer(Gravity)
            && wave.from == AtGravity(template.key)
  {
    var s := Play(EMPTY_INTERCHANGE, moves).value;
    EndToEnd(moves, out, i);
    RunsFollowThePlan(moves);
    StarPlan(template);
    assert Bare(s.ways[0]) == StarWays(template)[0];
    var sent, wave := s.ways[0].inbound.history.accepted, s.ways[out].outbound.history.handed[i].wave;
    var primers := [FromTransform(AtGravity(template.key)), AgentTransform(HyperUser), LayerTransform(Gravity)];
    assert s.ways[0].Primers() == primers;
    k :| 0 <= k < |sent| && sent[k].id == wave.id && FilterAll(s.ways[0].Primers(), sent[k]) == Some(wave);
    assert sent[k] in sent;
    to :| IsHop(template, to, sent[k]);
    LastReaddresses(primers, sent[k], Gravity);
  }

  /**
   * From star to star: a hop that a star sends, and that leaves it by the lane a neighbour is linked to, was a hop to
   * that neighbour; and what leaves the neighbour's interchange after it came in over that link goes to the neighbour
   * itself and to nobody else, under the name of the star that sent it.
   */
  lemma HopReachesThatStarOnly(a: StarTemplate, movesA: seq<Move>, out: nat, i: nat,
                               b: StarTemplate, movesB: seq<Move>, outB: nat, iB: nat)
    returns (k: nat, to: Surface)
    requires Play(EMPTY_INTERCHANGE, movesA).Some? && NobodyLeaves(movesA) && SetupOf(movesA) == SetupMoves(a)
    requires Play(EMPTY_INTERCHANGE, movesB).Some? && NobodyLeaves(movesB) && SetupOf(movesB) == SetupMoves(b)
    requires var s := Play(EMPTY_INTERCHANGE, movesA).value;
             && |s.ways| > 0 && (forall wave | wave in s.ways[0].inbound.history.accepted :: IsSomeHop(a, wave))
             && out < |s.ways| && s.ways[out].remote == AtGravity(b.key) && i < |s.ways[out].outbound.history.handed|
             && var id := s.ways[out].outbound.history.handed[i].wave.id; id in s.entered && s.entered[id] == 0
    requires var s, t := Play(EMPTY_INTERCHANGE, movesA).value, Play(EMPTY_INTERCHANGE, movesB).value;
             && outB < |t.ways| && iB < |t.ways[outB].outbound.history.handed|
             && var id := t.ways[outB].outbound.history.handed[iB].wave.id;
             && id == s.ways[out].outbound.history.handed[i].wave.id
             && id in t.entered && 0 < t.entered[id] < |StarWays(b)|
             && StarWays(b)[t.entered[id]].remote == AtGravity(a.key)
    ensures var s, t := Play(EMPTY_INTERCHANGE, movesA).value, Play(EMPTY_INTERCHANGE, movesB).value;
            var sent, wave := s.ways[0].inbound.history.accepted, t.ways[outB].outbound.history.handed[iB].wave;
            && k < |sent| && sent[k].id == wave.id && IsHop(a, to, sent[k])
            && NextHop(StarOf(a), to).surface.WithLayer(Gravity) == AtGravity(b.key)
            && t.ways[outB].remote == AtGravity(b.key) && wave.to == Single(AtGravity(b.key))
            && wave.from == AtGravity(a.key)
  {
    k, to := HopLeavesByItsLane(a, movesA, out, i);
    NeighboursReachOnlyTheStar(b, movesB, outB, iB);
    EndToEnd(movesB, outB, iB);
  }

  /** From the `k`-th on, registrations wait their turn and the lanes are as they were made. */
  ghost predicate Waiting(s: Interchange, k: nat) {
    && |s.calls| + k == |s.ways|
    && (forall j | 0 <= j < |s.calls| :: s.calls[j] == Internal(k + j))
    && (forall j | k <= j < |s.ways| :: s.ways[j].inbound.phase.Receiving? && |s.ways[j].inbound.mailbox| <= 4)
  }

  lemma OneMoreWaits(moves: seq<Move>, remote: Surface, readdressing: seq<Transform>)
    requires Play(EMPTY_INTERCHANGE, moves).Some? && Waiting(Play(EMPTY_INTERCHANGE, moves).value, 0)
    requires |readdressing| <= 1 && forall i | 0 <= i < |readdressing| :: Readdresses(readdressing[i])
    ensures var played := Play(EMPTY_INTERCHANGE, moves + [Add(remote, HyperUser, readdressing)]);
            played.Some? && Waiting(played.value, 0)
  {
    PlaySnoc(moves, Add(remote, HyperUser, readdressing));
  }

  lemma {:induction false} SetupPlays(template: StarTemplate)
    ensures Play(EMPTY_INTERCHANGE, SetupMoves(template)).Some?
    ensures Waiting(Play(EMPTY_INTERCHANGE, SetupMoves(template)).value, 0)
    decreases |template.connections|
  {
    var n, star := |template.connections|, AtGravity(template.key);
    if n == 0 {
      var own := Add(star, HyperUser, TO_GRAVITY);
      OneMoreWaits([], star, TO_GRAVITY);
      assert [] + [own] == [own];
      PlaySnoc([own], SetSingular(star));
      assert SetupMoves(template) == [own] + [SetSingular(star)];
    } else {
      var shorter, last := template.(connections := template.connections[..n - 1]), template.connections[n - 1];
      SetupPlays(shorter);
      OneMoreWaits(SetupMoves(shorter), AtGravity(last.stub.key), []);
      assert SetupMoves(template) == SetupMoves(shorter) + [LinkTo(last)];
    }
  }

  lemma NextRegistration(s: Interchange, k: nat)
    requires Waiting(s, k) && k < |s.ways|
    ensures Possible(s, Handle(false)) && Waiting(Moved(s, Handle(false)), k + 1)
    ensures |Moved(s, Handle(false)).ways| == |s.ways|
  {
    assert s.calls[0] == Internal(k);
    var t := Moved(s, Handle(false));
    assert forall j | 0 <= j < |t.calls| :: t.calls[j] == s.calls[j + 1];
    assert forall j | k < j < |t.ways| :: t.ways[j] == s.ways[j];
  }

  function Handles(k: nat): seq<Move> {
    if k == 0 then [] else Handles(k - 1) + [Handle(false)]
  }

  /** Playing one more move after a run. */
  lemma PlaySnoc(moves: seq<Move>, move: Move)
    requires Play(EMPTY_INTERCHANGE, moves).Some? && Possible(Play(EMPTY_INTERCHANGE, moves).value, move)
    ensures Play(EMPTY_INTERCHANGE, moves + [move]) == Some(Moved(Play(EMPTY_INTERCHANGE, moves).value, move))
  {
    assert (moves + [move])[..|moves|] == moves;
  }

  lemma OneCallIsPlayed(moves: seq<Move>, k: nat)
    requires Play(EMPTY_INTERCHANGE, moves).Some? && Waiting(Play(EMPTY_INTERCHANGE, moves).value, k)
    requires k < |Play(EMPTY_INTERCHANGE, moves).value.ways|
    ensures var played := Play(EMPTY_INTERCHANGE, moves + [Handle(false)]);
            && played.Some? && Waiting(played.value, k + 1)
            && |played.value.ways| == |Play(EMPTY_INTERCHANGE, moves).value.ways|
  {
    NextRegistration(Play(EMPTY_INTERCHANGE, moves).value, k);
    PlaySnoc(moves, Handle(false));
  }

  lemma {:induction false} CallsArePlayed(moves: seq<Move>, k: nat)
    requires Play(EMPTY_INTERCHANGE, moves).Some? && Waiting(Play(EMPTY_INTERCHANGE, moves).value, 0)
    requires k <= |Play(EMPTY_INTERCHANGE, moves).value.ways|
    ensures var played := Play(EMPTY_INTERCHANGE, moves + Handles(k));
            && played.Some? && Waiting(played.value, k)
            && |played.value.ways| == |Play(EMPTY_INTERCHANGE, moves).value.ways|
  {
    if k == 0 {
      assert moves + Handles(0) == moves;
    } else {
      var before := moves + Handles(k - 1);
      CallsArePlayed(moves, k - 1);
      OneCallIsPlayed(before, k - 1);
      assert moves + Handles(k) == before + [Handle(false)];
    }
  }

  /** Nothing stands in the way of handling all registrations, one after the other, right after the setup. */
  lemma RegistrationsPlay(template: StarTemplate)
    ensures var played := Play(EMPTY_INTERCHANGE, SetupMoves(template) + Handles(|template.connections| + 1));
            played.Some? && AllRegistered(played.value)
  {
    var moves := SetupMoves(template);
    SetupPlays(template);
    SetupOfSetup(moves);
    RunsFollowThePlan(moves);
    StarPlan(template);
    CallsArePlayed(moves, |template.connections| + 1);
  }

  lemma {:induction false} SetupOfSetup(moves: seq<Move>)
    requires forall i | 0 <= i < |moves| :: IsSetup(moves[i])
    ensures SetupOf(moves) == moves
  {
    if moves != [] {
      SetupOfSetup(moves[..|moves| - 1]);
    }
  }

  method AddPlayed(interchange: HyperwayInterchange, remote: Surface, readdressing: seq<Transform>,
                   ghost played: seq<Move>)
    requires interchange.Valid() && Play(EMPTY_INTERCHANGE, played) == Some(interchange.State())
    requires |readdressing| <= 1 && forall i | 0 <= i < |readdressing| :: Readdresses(readdressing[i])
    modifies interchange
    ensures interchange.Valid()
    ensures Play(EMPTY_INTERCHANGE, played + [Add(remote, HyperUser, readdressing)]) == Some(interchange.State())
  {
    PlaySnoc(played, Add(remote, HyperUser, readdressing));
    interchange.AddHyperway(remote, HyperUser, readdressing);
  }

  method SingularPlayed(interchange: HyperwayInterchange, to: Surface, ghost played: seq<Move>)
    requires interchange.Valid() && Play(EMPTY_INTERCHANGE, played) == Some(interchange.State())
    modifies interchange
    ensures interchange.Valid()
    ensures Play(EMPTY_INTERCHANGE, played + [SetSingular(to)]) == Some(interchange.State())
  {
    PlaySnoc(played, SetSingular(to));
    interchange.Singular(to);
  }

  /** The star with the first `n` of its connections. */
  function FirstLinks(template: StarTemplate, n: nat): StarTemplate
    requires n <= |template.connections|
  {
    template.(connections := template.connections[..n])
  }

  lemma SetupGrows(template: StarTemplate, n: nat)
    requires n < |template.connections|
    ensures SetupMoves(FirstLinks(template, n + 1)) ==
            SetupMoves(FirstLinks(template, n)) + [LinkTo(template.connections[n])]
  {
  }

  lemma SetupBegins(template: StarTemplate)
    ensures SetupMoves(FirstLinks(template, 0)) ==
            [] + [Add(AtGravity(template.key), HyperUser, TO_GRAVITY)] + [SetSingular(AtGravity(template.key))]
    ensures FirstLinks(template, |template.connections|) == template
  {
  }

  /** What the machine does for one star: the interchange it leaves behind is the one the planned moves lead to. */
  method WireStar(template: StarTemplate) returns (interchange: HyperwayInterchange)
    ensures fresh(interchange) && interchange.Valid()
    ensures Play(EMPTY_INTERCHANGE, SetupMoves(template)) == Some(interchange.State())
  {
    var star := AtGravity(template.key);
    interchange := new HyperwayInterchange();
    AddPlayed(interchange, star, TO_GRAVITY, []);
    SingularPlayed(interchange, star, [] + [Add(star, HyperUser, TO_GRAVITY)]);
    SetupBegins(template);
    for i := 0 to |template.connections|
      invariant fresh(interchange) && interchange.Valid()
      invariant Play(EMPTY_INTERCHANGE, SetupMoves(FirstLinks(template, i))) == Some(interchange.State())
    {
      SetupGrows(template, i);
      AddPlayed(interchange, AtGravity(template.connections[i].stub.key), [], SetupMoves(FirstLinks(template, i)));
    }
  }
}
