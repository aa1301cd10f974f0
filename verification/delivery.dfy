/**
 * What an interchange delivers: every kind of call by its effect on lanes and table, and that waves can get through.
 */
module InterchangeDelivery {
  import opened Wrappers
  import opened Loc
  import opened Transforms
  import L = HyperlaneSpec
  import opened HyperlaneFlow
  import opened InterchangeSpec

  // ------------------------------------------------------------------ each call by its effect

  /** The way a wave has to leave by: the one registered under its single recipient. */
  ghost predicate LeavesBy(s: Interchange, wave: Wave, i: nat) {
    i < |s.ways| && exists r :: wave.to == Single(r) && r in s.hyperways && s.hyperways[r] == i
  }

  /** The table only names ways there are. */
  ghost predicate KnownWays(s: Interchange) {
    forall r | r in s.hyperways :: s.hyperways[r] < |s.ways|
  }

  /** The lane with one more call in its mailbox. */
  ghost predicate Mailed(before: L.Lane, after: L.Lane, call: L.Call) {
    && after.mailbox == before.mailbox + [call]
    && (after.ext, after.queue, after.transforms, after.phase, after.closed) ==
       (before.ext, before.queue, before.transforms, before.phase, before.closed)
    && after.history == before.history.(accepted := after.history.accepted)
    && after.history.accepted == before.history.accepted + if call.WaveCall? then [call.wave] else []
  }

  /** Nothing but one outbound lane is different. */
  ghost predicate OnlyOutbound(s: Interchange, t: Interchange, i: nat) {
    && |t.ways| == |s.ways| && i < |s.ways|
    && (forall k | 0 <= k < |s.ways| && k != i :: t.ways[k] == s.ways[k])
    && t.ways[i] == s.ways[i].(outbound := t.ways[i].outbound)
    && (t.hyperways, t.singularTo, t.used, t.entered, t.dropped) ==
       (s.hyperways, s.singularTo, s.used, s.entered, s.dropped)
  }

  /**
   * The wave is in the mailbox it belongs in and nowhere else, if there is one and no timeout; or else it is dropped.
   */
  ghost predicate PassedOrDropped(s: Interchange, t: Interchange, wave: Wave, timeout: bool) {
    && (forall i: nat | LeavesBy(s, wave, i) && !timeout ::
          OnlyOutbound(s, t, i) && Mailed(s.ways[i].outbound, t.ways[i].outbound, L.WaveCall(wave)))
    && (timeout || (forall i: nat :: !LeavesBy(s, wave, i)) ==>
          t == s.(calls := t.calls, dropped := s.dropped + [wave]))
  }

  lemma HandledRouted(s: Interchange, wave: Wave, timeout: bool)
    requires KnownWays(s) && CanHandle(s, Routed(wave), timeout)
    ensures PassedOrDropped(s, Handled(s, Routed(wave), timeout), wave, timeout)
  {
    if wave.to.Single? && wave.to.surface in s.hyperways {
      assert LeavesBy(s, wave, s.hyperways[wave.to.surface]);
    }
  }

  /**
   * A routed wave is mailed to the outbound lane of the way registered under its one recipient, where it waits for
   * room, and nothing else changes, iff there is such a way and no timeout; otherwise it is dropped and no lane
   * changes.
   */
  lemma RoutedExactly(s: Interchange, wave: Wave, timeout: bool)
    requires KnownWays(s) && s.calls != [] && s.calls[0] == Routed(wave)
    ensures Possible(s, Handle(timeout)) <==>
            timeout || forall i: nat | LeavesBy(s, wave, i) ::
              |s.ways[i].outbound.mailbox| < 1024 && !s.ways[i].outbound.phase.Panicked?
    ensures Possible(s, Handle(timeout)) ==>
              var t := Moved(s, Handle(timeout));
              t.calls == s.calls[1..] && PassedOrDropped(s, t, wave, timeout)
  {
    if wave.to.Single? && wave.to.surface in s.hyperways {
      assert LeavesBy(s, wave, s.hyperways[wave.to.surface]);
    }
  }

  /** A mount mails its listener to the outbound lane registered under the remote; to a panicked one in vain. */
  lemma MountedExactly(s: Interchange, remote: Surface, listener: L.ListenerId, timeout: bool)
    requires KnownWays(s) && s.calls != [] && s.calls[0] == Mount(remote, listener)
    ensures Possible(s, Handle(timeout)) <==>
            (remote in s.hyperways ==>
               var lane := s.ways[s.hyperways[remote]].outbound; |lane.mailbox| < 1024 || lane.phase.Panicked?)
    ensures Possible(s, Handle(timeout)) ==>
              var t := Moved(s, Handle(timeout));
              && t.calls == s.calls[1..]
              && (remote !in s.hyperways ==> t == s.(calls := s.calls[1..]))
              && (remote in s.hyperways ==>
                    var i := s.hyperways[remote];
                    && OnlyOutbound(s, t, i)
                    && if s.ways[i].outbound.phase.Panicked? then t.ways[i] == s.ways[i]
                       else Mailed(s.ways[i].outbound, t.ways[i].outbound, L.Ext(listener)))
  {
  }

  /** A registration enters the way into the table and mails the relay's listener to its inbound lane. */
  lemma RegisteredAtOnce(s: Interchange, i: nat, timeout: bool)
    requires s.calls != [] && s.calls[0] == Internal(i) && i < |s.ways|
    ensures Possible(s, Handle(timeout)) <==>
            |s.ways[i].inbound.mailbox| < 1024 || s.ways[i].inbound.phase.Panicked?
    ensures Possible(s, Handle(timeout)) ==>
              var t := Moved(s, Handle(timeout));
              && t.hyperways == s.hyperways[s.ways[i].remote := i]
              && |t.ways| == |s.ways| && (forall k | 0 <= k < |s.ways| && k != i :: t.ways[k] == s.ways[k])
              && t.ways[i] == s.ways[i].(inbound := t.ways[i].inbound)
              && (if s.ways[i].inbound.phase.Panicked? then t.ways[i] == s.ways[i]
                  else Mailed(s.ways[i].inbound, t.ways[i].inbound, L.Ext(0)))
              && t == s.(calls := s.calls[1..], ways := t.ways, hyperways := t.hyperways)
  {
  }

  // ------------------------------------------------------------------ the table over whole runs

  /** The calls handled along a run. */
  ghost function HandledCalls(moves: seq<Move>): seq<Call>
    requires Play(EMPTY_INTERCHANGE, moves).Some?
  {
    if moves == [] then []
    else
      var init, last := moves[..|moves| - 1], moves[|moves| - 1];
      HandledCalls(init) +
      if last.Handle? then [Play(EMPTY_INTERCHANGE, init).value.calls[0]] else []
  }

  /** The call a move mails to the interchange, if any: what it asks for, or the next wave its relay has been handed. */
  ghost function MailedBy(s: Interchange, move: Move): seq<Call>
    requires Possible(s, move)
  {
    match move
    case Add(_, _, _) => [Internal(|s.ways|)]
    case AskRemove(remote) => [Remove(remote)]
    case AskMount(remote, listener) => [Mount(remote, listener)]
    case RouteDirectly(wave) => [Routed(wave)]
    case Relay(i, timeout) =>
      if timeout then [] else [Routed(s.ways[i].inbound.history.handed[s.ways[i].taken].wave)]
    case _ => []
  }

  ghost function MailedCalls(moves: seq<Move>): seq<Call>
    requires Play(EMPTY_INTERCHANGE, moves).Some?
  {
    if moves == [] then []
    else
      var init, last := moves[..|moves| - 1], moves[|moves| - 1];
      MailedCalls(init) + MailedBy(Play(EMPTY_INTERCHANGE, init).value, last)
  }

  /** Handling a call mails none and changes nothing about those behind it. */
  lemma MoveMails(s: Interchange, move: Move)
    requires Possible(s, move)
    ensures Moved(s, move).calls == if move.Handle? then s.calls[1..] else s.calls + MailedBy(s, move)
  {
  }

  lemma HeadOrTail(handled: seq<Call>, calls: seq<Call>, mailed: seq<Call>, handles: bool)
    requires handles ==> calls != [] && mailed == []
    ensures if handles then (handled + [calls[0]]) + calls[1..] == (handled + calls) + mailed
            else (handled + []) + (calls + mailed) == (handled + calls) + mailed
  {
  }

  /** Over every run: the interchange handles calls of whatever kind in the order in which they were mailed. */
  lemma {:induction false} CallsInOrder(moves: seq<Move>)
    requires Play(EMPTY_INTERCHANGE, moves).Some?
    ensures HandledCalls(moves) + Play(EMPTY_INTERCHANGE, moves).value.calls == MailedCalls(moves)
  {
    if moves != [] {
      var init, last := moves[..|moves| - 1], moves[|moves| - 1];
      CallsInOrder(init);
      var s := Play(EMPTY_INTERCHANGE, init).value;
      MoveMails(s, last);
      HeadOrTail(HandledCalls(init), s.calls, MailedBy(s, last), last.Handle?);
    }
  }

  /** A call that decides where waves for this remote go. */
  predicate Decides(ways: seq<Way>, call: Call, remote: Surface) {
    || call == Remove(remote)
    || (call.Internal? && call.way < |ways| && ways[call.way].remote == remote)
  }

  /** The `k`-th call handled registers way `i` for the remote, and none after it is about that remote. */
  ghost predicate LastDecision(ways: seq<Way>, handled: seq<Call>, remote: Surface, i: nat, k: nat) {
    && k < |handled| && handled[k] == Internal(i) && i < |ways| && ways[i].remote == remote
    && forall j | k < j < |handled| :: !Decides(ways, handled[j], remote)
  }

  ghost predicate RegisteredBy(ways: seq<Way>, handled: seq<Call>, remote: Surface, i: nat) {
    exists k: nat :: LastDecision(ways, handled, remote, i, k)
  }

  ghost predicate InTable(s: Interchange, remote: Surface, i: nat) {
    remote in s.hyperways && s.hyperways[remote] == i
  }

  lemma OneMoreHandled(ways: seq<Way>, handled: seq<Call>, call: Call, remote: Surface, i: nat)
    ensures RegisteredBy(ways, handled + [call], remote, i) <==>
            if Decides(ways, call, remote) then call == Internal(i) else RegisteredBy(ways, handled, remote, i)
  {
    var more, n := handled + [call], |handled|;
    assert more[n] == call && forall j | 0 <= j < n :: more[j] == handled[j];
    if Decides(ways, call, remote) {
      assert call == Internal(i) ==> LastDecision(ways, more, remote, i, n);
    } else if k: nat :| LastDecision(ways, handled, remote, i, k) {
      assert LastDecision(ways, more, remote, i, k);
    }
    if k: nat :| LastDecision(ways, more, remote, i, k) {
      if k < n {
        assert !Decides(ways, more[n], remote);
        assert LastDecision(ways, handled, remote, i, k);
      }
    }
  }

  /** Ways keep their remotes, so which decision was the last does not change as ways are added. */
  ghost predicate SameRemotes(before: seq<Way>, after: seq<Way>) {
    |before| <= |after| && forall k | 0 <= k < |before| :: after[k].remote == before[k].remote
  }

  lemma DecisionsStay(before: seq<Way>, after: seq<Way>, handled: seq<Call>, remote: Surface, i: nat)
    requires SameRemotes(before, after)
    requires forall k | 0 <= k < |handled| && handled[k].Internal? :: handled[k].way < |before|
    ensures RegisteredBy(before, handled, remote, i) <==> RegisteredBy(after, handled, remote, i)
  {
    if k: nat :| LastDecision(before, handled, remote, i, k) {
      assert LastDecision(after, handled, remote, i, k);
    }
    if k: nat :| LastDecision(after, handled, remote, i, k) {
      assert handled[k].Internal?;
      assert LastDecision(before, handled, remote, i, k);
    }
  }

  lemma MoveKeepsRemotes(s: Interchange, move: Move)
    requires Possible(s, move)
    ensures SameRemotes(s.ways, Moved(s, move).ways)
    ensures !move.Handle? ==> Moved(s, move).hyperways == s.hyperways
  {
  }

  lemma HandledTable(s: Interchange, call: Call, timeout: bool, remote: Surface, i: nat)
    requires CanHandle(s, call, timeout)
    ensures InTable(Handled(s, call, timeout), remote, i) <==>
            if Decides(s.ways, call, remote) then call == Internal(i) else InTable(s, remote, i)
  {
  }

  ghost predicate HandledKnown(s: Interchange, handled: seq<Call>) {
    forall k | 0 <= k < |handled| && handled[k].Internal? :: handled[k].way < |s.ways|
  }

  /**
   * Over every run: waves for a remote go to a way iff its registration is the last thing handled about that remote, no
   * later registration and no removal having been handled since.
   */
  lemma {:induction false} RegisteredExactly(moves: seq<Move>, remote: Surface, i: nat)
    requires Play(EMPTY_INTERCHANGE, moves).Some?
    ensures HandledKnown(Play(EMPTY_INTERCHANGE, moves).value, HandledCalls(moves))
    ensures InTable(Play(EMPTY_INTERCHANGE, moves).value, remote, i) <==>
            RegisteredBy(Play(EMPTY_INTERCHANGE, moves).value.ways, HandledCalls(moves), remote, i)
  {
    if moves != [] {
      var init, last := moves[..|moves| - 1], moves[|moves| - 1];
      RegisteredExactly(init, remote, i);
      var s, handled := Play(EMPTY_INTERCHANGE, init).value, HandledCalls(init);
      var t := Moved(s, last);
      MoveKeepsRemotes(s, last);
      DecisionsStay(s.ways, t.ways, handled, remote, i);
      if last.Handle? {
        HandledTable(s.(calls := s.calls[1..]), s.calls[0], last.timeout, remote, i);
        OneMoreHandled(t.ways, handled, s.calls[0], remote, i);
        assert HandledCalls(moves) == handled + [s.calls[0]];
      } else {
        assert HandledCalls(moves) == handled + [] == handled;
      }
    }
  }

  // ------------------------------------------------------------------ what is dropped

  /** A move that gives a wave up: a timeout, or a routed wave with no way registered under one recipient. */
  ghost predicate GivesUp(s: Interchange, move: Move) {
    || (move.Relay? && move.timeout)
    || (move.Handle? && s.calls != [] && s.calls[0].Routed?
        && (move.timeout || forall r :: s.calls[0].wave.to == Single(r) ==> r !in s.hyperways))
  }

  ghost predicate NeverGivesUp(moves: seq<Move>)
    requires Play(EMPTY_INTERCHANGE, moves).Some?
  {
    moves != [] ==>
      && NeverGivesUp(moves[..|moves| - 1])
      && !GivesUp(Play(EMPTY_INTERCHANGE, moves[..|moves| - 1]).value, moves[|moves| - 1])
  }

  lemma DroppedStep(s: Interchange, move: Move)
    requires InterchangeSpec.Ok(s) && Possible(s, move)
    ensures Moved(s, move).dropped == s.dropped <==> !GivesUp(s, move)
    ensures s.dropped <= Moved(s, move).dropped
  {
    if move.Handle? && s.calls[0].Routed? {
      RoutedExactly(s, s.calls[0].wave, move.timeout);
    }
  }

  /**
   * Over every run: nothing has been dropped iff no move gave a wave up, by a timeout or for want of a registered way.
   */
  lemma {:induction false} NothingDroppedExactly(moves: seq<Move>)
    requires Play(EMPTY_INTERCHANGE, moves).Some?
    ensures Play(EMPTY_INTERCHANGE, moves).value.dropped == [] <==> NeverGivesUp(moves)
  {
    if moves != [] {
      var init := moves[..|moves| - 1];
      NothingDroppedExactly(init);
      PlayOk(init);
      DroppedStep(Play(EMPTY_INTERCHANGE, init).value, moves[|moves| - 1]);
    }
  }

  // ------------------------------------------------------------------ waves can get through

  lemma {:induction false} PlayConcat(s: Interchange, a: seq<Move>, b: seq<Move>)
    requires Play(s, a).Some?
    ensures Play(s, a + b) == Play(Play(s, a).value, b)
    decreases |b|
  {
    if b == [] {
      assert a + b == a;
    } else {
      assert (a + b)[..|a + b| - 1] == a + b[..|b| - 1];
      PlayConcat(s, a, b[..|b| - 1]);
    }
  }

  lemma PlayThen(s: Interchange, moves: seq<Move>, t: Interchange, move: Move)
    requires Play(s, moves) == Some(t) && Possible(t, move)
    ensures Play(s, moves + [move]) == Some(Moved(t, move))
  {
    assert (moves + [move])[..|moves|] == moves;
  }

  function OutboundSteps(i: nat, steps: seq<L.Step>): seq<Move> {
    seq(|steps|, k requires 0 <= k < |steps| => OutboundStep(i, steps[k]))
  }

  lemma SameOutbound(s: Interchange, i: nat, lane: L.Lane)
    requires i < |s.ways|
    ensures WithOutbound(s, i, s.ways[i].outbound) == s
    ensures WithOutbound(s, i, lane).ways[i].outbound == lane
    ensures forall other :: WithOutbound(WithOutbound(s, i, lane), i, other) == WithOutbound(s, i, other)
  {
    assert s.ways[i := s.ways[i].(outbound := s.ways[i].outbound)] == s.ways;
    forall other
      ensures WithOutbound(WithOutbound(s, i, lane), i, other) == WithOutbound(s, i, other)
    {
      assert WithOutbound(WithOutbound(s, i, lane), i, other).ways == WithOutbound(s, i, other).ways;
    }
  }

  lemma OneLaneStep(s: Interchange, i: nat, lane: L.Lane, step: L.Step)
    requires i < |s.ways| && L.Enabled(lane, step) && !step.Accept?
    ensures Possible(WithOutbound(s, i, lane), OutboundStep(i, step))
    ensures Moved(WithOutbound(s, i, lane), OutboundStep(i, step)) == WithOutbound(s, i, L.Next(lane, step))
  {
    SameOutbound(s, i, lane);
  }

  /** The task of an outbound lane can go on by itself as far as the lane allows. */
  lemma {:induction false} LaneRunPlays(s: Interchange, i: nat, steps: seq<L.Step>)
    requires i < |s.ways| && TaskOnly(steps) && L.Run(s.ways[i].outbound, steps).Some?
    ensures Play(s, OutboundSteps(i, steps)) == Some(WithOutbound(s, i, L.Run(s.ways[i].outbound, steps).value))
    decreases |steps|
  {
    if steps == [] {
      SameOutbound(s, i, s.ways[i].outbound);
      assert OutboundSteps(i, steps) == [];
    } else {
      var init, last := steps[..|steps| - 1], steps[|steps| - 1];
      LaneRunPlays(s, i, init);
      var lane := L.Run(s.ways[i].outbound, init).value;
      OneLaneStep(s, i, lane, last);
      PlayThen(s, OutboundSteps(i, init), WithOutbound(s, i, lane), OutboundStep(i, last));
      assert OutboundSteps(i, steps) == OutboundSteps(i, init) + [OutboundStep(i, last)];
    }
  }

  /** A task that is not sending has nothing to send or nobody to send it to. */
  ghost predicate Rested(lane: L.Lane) {
    && (lane.phase.Receiving? ==> lane.queue == [] || lane.ext.None?)
    && (lane.phase.Sending? ==> lane.queue != [] && lane.ext.Some?)
  }

  ghost predicate AllRested(s: Interchange) {
    forall i | 0 <= i < |s.ways| :: Rested(s.ways[i].inbound) && Rested(s.ways[i].outbound)
  }

  lemma StepKeepsRested(lane: L.Lane, step: L.Step)
    requires Rested(lane) && L.Enabled(lane, step)
    ensures Rested(L.Next(lane, step))
  {
  }

  lemma InboundKeepsRested(s: Interchange, i: nat, step: L.Step)
    requires AllRested(s) && i < |s.ways| && L.Enabled(s.ways[i].inbound, step)
    ensures AllRested(WithInbound(s, i, L.Next(s.ways[i].inbound, step)))
  {
    StepKeepsRested(s.ways[i].inbound, step);
  }

  lemma OutboundKeepsRested(s: Interchange, i: nat, step: L.Step)
    requires AllRested(s) && i < |s.ways| && L.Enabled(s.ways[i].outbound, step)
    ensures AllRested(WithOutbound(s, i, L.Next(s.ways[i].outbound, step)))
  {
    StepKeepsRested(s.ways[i].outbound, step);
  }

  lemma HandlingKeepsRested(s: Interchange, call: Call, timeout: bool)
    requires AllRested(s) && CanHandle(s, call, timeout)
    ensures AllRested(Handled(s, call, timeout))
  {
    match call
    case Internal(i) =>
      if !s.ways[i].inbound.phase.Panicked? {
        InboundKeepsRested(s, i, L.Accept(L.Ext(0)));
      }
    case Remove(_) =>
    case Routed(wave) =>
      if wave.to.Single? && wave.to.surface in s.hyperways && s.hyperways[wave.to.surface] < |s.ways| && !timeout {
        OutboundKeepsRested(s, s.hyperways[wave.to.surface], L.Accept(L.WaveCall(wave)));
      }
    case Mount(remote, listener) =>
      if remote in s.hyperways && s.hyperways[remote] < |s.ways| {
        var i := s.hyperways[remote];
        if !s.ways[i].outbound.phase.Panicked? {
          OutboundKeepsRested(s, i, L.Accept(L.Ext(listener)));
        }
      }
  }

  lemma MoveKeepsRested(s: Interchange, move: Move)
    requires AllRested(s) && Possible(s, move)
    ensures AllRested(Moved(s, move))
  {
    match move
    case Enter(i, wave) => InboundKeepsRested(s, i, L.Accept(L.WaveCall(wave)));
    case Handle(timeout) => HandlingKeepsRested(s.(calls := s.calls[1..]), s.calls[0], timeout);
    case InboundStep(i, step) => InboundKeepsRested(s, i, step);
    case OutboundStep(i, step) => OutboundKeepsRested(s, i, step);
    case _ =>
  }

  lemma {:induction false} PlayRested(moves: seq<Move>)
    requires Play(EMPTY_INTERCHANGE, moves).Some?
    ensures AllRested(Play(EMPTY_INTERCHANGE, moves).value)
  {
    if moves != [] {
      PlayRested(moves[..|moves| - 1]);
      MoveKeepsRested(Play(EMPTY_INTERCHANGE, moves[..|moves| - 1]).value, moves[|moves| - 1]);
    }
  }

  /** A lane somebody listens to, now and after what is in its mailbox, and that is not taking a wave back. */
  ghost predicate Listened(lane: L.Lane) {
    && lane.ext.Some? && lane.ext.value !in lane.closed
    && (lane.phase.Receiving? || lane.phase.Sending?)
    && (forall c | c in lane.mailbox :: c != L.ResetExt && (c.Ext? ==> c.listener !in lane.closed))
  }

  /** Outbound lanes transform nothing, so a listened one is free to flow. */
  lemma ListenedFlows(moves: seq<Move>, i: nat)
    requires Play(EMPTY_INTERCHANGE, moves).Some? && i < |Play(EMPTY_INTERCHANGE, moves).value.ways|
    requires Listened(Play(EMPTY_INTERCHANGE, moves).value.ways[i].outbound)
    ensures Flows(Play(EMPTY_INTERCHANGE, moves).value.ways[i].outbound)
  {
    PlayOk(moves);
    PlayRested(moves);
    var s := Play(EMPTY_INTERCHANGE, moves).value;
    assert WayOk(s, i) && Rested(s.ways[i].outbound);
    var lane := s.ways[i].outbound;
    forall k | 0 <= k < |lane.mailbox|
      ensures !lane.mailbox[k].ResetExt? && (lane.mailbox[k].Ext? ==> lane.mailbox[k].listener !in lane.closed)
    {
      assert lane.mailbox[k] in lane.mailbox;
    }
  }

  lemma RoutedMails(s: Interchange, wave: Wave, i: nat)
    requires LeavesBy(s, wave, i) && s.calls != [] && s.calls[0] == Routed(wave)
    requires L.Enabled(s.ways[i].outbound, L.Accept(L.WaveCall(wave)))
    ensures Possible(s, Handle(false))
    ensures Moved(s, Handle(false)) ==
            WithOutbound(s.(calls := s.calls[1..]), i, L.Next(s.ways[i].outbound, L.Accept(L.WaveCall(wave))))
  {
  }

  /** Handling one call, and then some steps of an outbound lane. */
  lemma HandledThenLane(s: Interchange, i: nat, mailed: L.Lane, steps: seq<L.Step>)
    requires Possible(s, Handle(false)) && i < |s.ways| && TaskOnly(steps) && L.Run(mailed, steps).Some?
    requires Moved(s, Handle(false)) == WithOutbound(s.(calls := s.calls[1..]), i, mailed)
    ensures Play(s, [Handle(false)] + OutboundSteps(i, steps)) ==
            Some(WithOutbound(s.(calls := s.calls[1..]), i, L.Run(mailed, steps).value))
  {
    var t := s.(calls := s.calls[1..]);
    SameOutbound(t, i, mailed);
    assert Play(s, []) == Some(s) && [] + [Handle(false)] == [Handle(false)];
    PlayThen(s, [], s, Handle(false));
    PlayConcat(s, [Handle(false)], OutboundSteps(i, steps));
    LaneRunPlays(WithOutbound(t, i, mailed), i, steps);
  }

  /** Handling a routed wave at an empty lane that flows, and handing the wave out. */
  lemma RoutedLeaves(s: Interchange, wave: Wave, i: nat)
    requires LeavesBy(s, wave, i) && s.calls != [] && s.calls[0] == Routed(wave)
    requires var lane := s.ways[i].outbound; Flows(lane) && lane.mailbox == [] && lane.queue == []
    ensures var played := Play(s, [Handle(false)] + OutboundSteps(i, [L.Receive, L.Deliver]));
            && played.Some? && |played.value.ways| == |s.ways| && played.value.dropped == s.dropped
            && var lane := s.ways[i].outbound;
            played.value.ways[i].outbound.history.handed ==
            lane.history.handed + [L.Handed(lane.ext.value, wave)]
  {
    var lane := s.ways[i].outbound;
    HandsOver(lane, wave);
    RoutedMails(s, wave, i);
    HandledThenLane(s, i, L.Next(lane, L.Accept(L.WaveCall(wave))), [L.Receive, L.Deliver]);
  }

  /**
   * From every reachable state in which a routed wave is next and its recipient's lane is listened to: some
   * continuation hands it out there, after everything that lane held before it, and drops nothing.
   */
  lemma RoutedCanLeave(moves: seq<Move>, wave: Wave, i: nat) returns (more: seq<Move>, listener: L.ListenerId)
    requires Play(EMPTY_INTERCHANGE, moves).Some?
    requires var s := Play(EMPTY_INTERCHANGE, moves).value;
             && s.calls != [] && s.calls[0] == Routed(wave) && LeavesBy(s, wave, i) && Listened(s.ways[i].outbound)
    ensures var s := Play(EMPTY_INTERCHANGE, moves).value;
            var played, lane := Play(EMPTY_INTERCHANGE, moves + more), s.ways[i].outbound;
            && played.Some? && i < |played.value.ways| && played.value.dropped == s.dropped
            && listener !in lane.closed
            && var handed := played.value.ways[i].outbound.history.handed;
            && handed != [] && handed[|handed| - 1] == L.Handed(listener, wave)
            && L.HandedWaves(handed) == Through(lane) + [wave]
  {
    var s := Play(EMPTY_INTERCHANGE, moves).value;
    ListenedFlows(moves, i);
    var steps, lane := FlowEmpties(s.ways[i].outbound);
    LaneRunPlays(s, i, steps);
    var emptied, last := OutboundSteps(i, steps), [Handle(false)] + OutboundSteps(i, [L.Receive, L.Deliver]);
    var t := WithOutbound(s, i, lane);
    RoutedLeaves(t, wave, i);
    PlayConcat(EMPTY_INTERCHANGE, moves, emptied + last);
    PlayConcat(s, emptied, last);
    more, listener := emptied + last, lane.ext.value;
    L.HandedConcat(lane.history.handed, L.Handed(listener, wave));
  }

  lemma MountMails(s: Interchange, remote: Surface, listener: L.ListenerId, i: nat)
    requires InTable(s, remote, i) && i < |s.ways| && s.calls != [] && s.calls[0] == Mount(remote, listener)
    requires L.Enabled(s.ways[i].outbound, L.Accept(L.Ext(listener)))
    ensures Possible(s, Handle(false))
    ensures Moved(s, Handle(false)) ==
            WithOutbound(s.(calls := s.calls[1..]), i, L.Next(s.ways[i].outbound, L.Accept(L.Ext(listener))))
  {
  }

  /** A quiet lane of an interchange, once a listener is mailed to it, flows as soon as it has received that. */
  lemma ListenerArrives(lane: L.Lane, listener: L.ListenerId)
    requires lane.phase.Receiving? && lane.mailbox == [] && lane.transforms == [] && listener !in lane.closed
    ensures L.Enabled(lane, L.Accept(L.Ext(listener)))
    ensures var mailed := L.Next(lane, L.Accept(L.Ext(listener)));
            && L.Enabled(mailed, L.Receive)
            && var t := L.Next(mailed, L.Receive);
            && Flows(t) && t.ext == Some(listener) && t.mailbox == [] && t.queue == lane.queue
            && t.history.handed == lane.history.handed
  {
    assert L.Next(lane, L.Accept(L.Ext(listener))).mailbox == [L.Ext(listener)];
  }

  /**
   * From every reachable state in which a mount is next, its remote is registered and that lane is waiting for mail:
   * some continuation hands the listener the whole queue of the lane, in order.
   */
  lemma MountedCanHand(moves: seq<Move>, remote: Surface, listener: L.ListenerId, i: nat) returns (more: seq<Move>)
    requires Play(EMPTY_INTERCHANGE, moves).Some?
    requires var s := Play(EMPTY_INTERCHANGE, moves).value;
             && s.calls != [] && s.calls[0] == Mount(remote, listener) && InTable(s, remote, i) && i < |s.ways|
             && var lane := s.ways[i].outbound;
             lane.phase.Receiving? && lane.mailbox == [] && listener !in lane.closed
    ensures var s := Play(EMPTY_INTERCHANGE, moves).value;
            var played, lane := Play(EMPTY_INTERCHANGE, moves + more), s.ways[i].outbound;
            && played.Some? && i < |played.value.ways| && played.value.dropped == s.dropped
            && var after := played.value.ways[i].outbound;
            && after.ext == Some(listener) && after.queue == []
            && L.HandedWaves(after.history.handed) == L.HandedWaves(lane.history.handed) + lane.queue
            && forall k | |lane.history.handed| <= k < |after.history.handed| ::
                 after.history.handed[k].listener == listener
  {
    var s := Play(EMPTY_INTERCHANGE, moves).value;
    PlayOk(moves);
    assert WayOk(s, i);
    var lane := s.ways[i].outbound;
    ListenerArrives(lane, listener);
    MountMails(s, remote, listener, i);
    var mailed := L.Next(lane, L.Accept(L.Ext(listener)));
    var steps, t := FlowEmpties(L.Next(mailed, L.Receive));
    FirstThenRest(mailed, L.Receive, steps);
    HandledThenLane(s, i, mailed, [L.Receive] + steps);
    more := [Handle(false)] + OutboundSteps(i, [L.Receive] + steps);
    PlayConcat(EMPTY_INTERCHANGE, moves, more);
    assert L.MailedWaves([]) == [];
    assert Through(L.Next(mailed, L.Receive)) == L.HandedWaves(lane.history.handed) + lane.queue;
  }

  // ------------------------------------------------------------------ from one remote to another

  function InboundSteps(i: nat, steps: seq<L.Step>): seq<Move> {
    seq(|steps|, k requires 0 <= k < |steps| => InboundStep(i, steps[k]))
  }

  lemma SameInbound(s: Interchange, i: nat, lane: L.Lane)
    requires i < |s.ways|
    ensures WithInbound(s, i, s.ways[i].inbound) == s
    ensures WithInbound(s, i, lane).ways[i].inbound == lane
    ensures forall other :: WithInbound(WithInbound(s, i, lane), i, other) == WithInbound(s, i, other)
  {
    assert s.ways[i := s.ways[i].(inbound := s.ways[i].inbound)] == s.ways;
    forall other
      ensures WithInbound(WithInbound(s, i, lane), i, other) == WithInbound(s, i, other)
    {
      assert WithInbound(WithInbound(s, i, lane), i, other).ways == WithInbound(s, i, other).ways;
    }
  }

  lemma OneInboundStep(s: Interchange, i: nat, lane: L.Lane, step: L.Step)
    requires i < |s.ways| && L.Enabled(lane, step) && !step.Accept?
    ensures Possible(WithInbound(s, i, lane), InboundStep(i, step))
    ensures Moved(WithInbound(s, i, lane), InboundStep(i, step)) == WithInbound(s, i, L.Next(lane, step))
  {
    SameInbound(s, i, lane);
  }

  lemma {:induction false} InboundRunPlays(s: Interchange, i: nat, steps: seq<L.Step>)
    requires i < |s.ways| && TaskOnly(steps) && L.Run(s.ways[i].inbound, steps).Some?
    ensures Play(s, InboundSteps(i, steps)) == Some(WithInbound(s, i, L.Run(s.ways[i].inbound, steps).value))
    decreases |steps|
  {
    if steps == [] {
      SameInbound(s, i, s.ways[i].inbound);
      assert InboundSteps(i, steps) == [];
    } else {
      var init, last := steps[..|steps| - 1], steps[|steps| - 1];
      InboundRunPlays(s, i, init);
      var lane := L.Run(s.ways[i].inbound, init).value;
      OneInboundStep(s, i, lane, last);
      PlayThen(s, InboundSteps(i, init), WithInbound(s, i, lane), InboundStep(i, last));
      assert InboundSteps(i, steps) == InboundSteps(i, init) + [InboundStep(i, last)];
    }
  }

  /** An inbound lane that has been told of its relay, before its task has done anything. */
  ghost predicate IsReadyInbound(lane: L.Lane, remote: Surface, agent: Agent) {
    && lane.mailbox == [L.TransformCall(FromTransform(remote)), L.TransformCall(AgentTransform(agent)), L.Ext(0)]
    && lane == L.EMPTY.(mailbox := lane.mailbox)
  }

  /** Two registered ways and nothing else. */
  ghost predicate TwoRegistered(s: Interchange, a: Surface, agent: Agent, b: Surface) {
    && |s.ways| == 2 && s.calls == [] && s.used == {} && s.dropped == []
    && IsReadyInbound(s.ways[0].inbound, a, agent) && s.ways[0].taken == 0
    && s.ways[1].outbound == L.EMPTY && InTable(s, b, 1)
  }

  lemma Registering(s: Interchange, i: nat)
    requires s.calls != [] && s.calls[0] == Internal(i) && i < |s.ways| && s.ways[i].inbound.phase.Receiving?
    requires |s.ways[i].inbound.mailbox| < 1024
    ensures Possible(s, Handle(false))
    ensures Moved(s, Handle(false)) ==
            WithInbound(s.(calls := s.calls[1..]), i, L.Next(s.ways[i].inbound, L.Accept(L.Ext(0))))
            .(hyperways := s.hyperways[s.ways[i].remote := i])
  {
  }

  lemma Onwards(moves: seq<Move>, s: Interchange, move: Move) returns (more: seq<Move>, t: Interchange)
    requires Play(EMPTY_INTERCHANGE, moves) == Some(s) && Possible(s, move)
    ensures Play(EMPTY_INTERCHANGE, more) == Some(t) && t == Moved(s, move)
  {
    more, t := moves + [move], Moved(s, move);
    PlayThen(EMPTY_INTERCHANGE, moves, s, move);
  }

  /** Two ways on their way into the table. */
  ghost predicate TwoAdded(s: Interchange, a: Surface, agent: Agent, b: Surface) {
    && |s.ways| == 2 && s.calls == [Internal(0), Internal(1)] && s.used == {} && s.dropped == []
    && s.ways[0].inbound == L.Inbound(a, agent) && s.ways[0].taken == 0
    && s.ways[1].inbound.phase.Receiving? && |s.ways[1].inbound.mailbox| == 2
    && s.ways[1].outbound == L.EMPTY && s.ways[1].remote == b
  }

  lemma TwoCanBeAdded(a: Surface, agentA: Agent, b: Surface, agentB: Agent) returns (moves: seq<Move>, s: Interchange)
    ensures Play(EMPTY_INTERCHANGE, moves) == Some(s) && TwoAdded(s, a, agentA, b)
  {
    moves, s := Onwards([], EMPTY_INTERCHANGE, Add(a, agentA, []));
    moves, s := Onwards(moves, s, Add(b, agentB, []));
  }

  lemma TwoCanRegister(a: Surface, agentA: Agent, b: Surface, agentB: Agent) returns (moves: seq<Move>, s: Interchange)
    ensures Play(EMPTY_INTERCHANGE, moves) == Some(s) && TwoRegistered(s, a, agentA, b)
  {
    moves, s := TwoCanBeAdded(a, agentA, b, agentB);
    ghost var first := s;
    Registering(s, 0);
    moves, s := Onwards(moves, s, Handle(false));
    assert s.calls == [Internal(1)] && s.ways[1] == first.ways[1];
    assert IsReadyInbound(s.ways[0].inbound, a, agentA);
    ghost var second := s;
    Registering(s, 1);
    moves, s := Onwards(moves, s, Handle(false));
    assert s.ways[0] == second.ways[0];
  }

  /** A wave that enters such a lane comes out of it with the stamps on. */
  lemma ReadyInboundHandsOut(lane: L.Lane, remote: Surface, agent: Agent, wave: Wave)
    requires IsReadyInbound(lane, remote, agent)
    ensures L.Enabled(lane, L.Accept(L.WaveCall(wave)))
    ensures var steps := [L.Receive, L.Receive, L.Receive, L.Receive, L.Deliver];
            var run := L.Run(L.Next(lane, L.Accept(L.WaveCall(wave))), steps);
            run.Some? && run.value.history.handed == [L.Handed(0, wave.(from := remote, agent := agent))]
  {
    var stamps := [FromTransform(remote), AgentTransform(agent)];
    var entered := L.Next(lane, L.Accept(L.WaveCall(wave)));
    var from := L.Next(entered, L.Receive);
    assert from == entered.(mailbox := entered.mailbox[1..], transforms := [stamps[0]]);
    var stamped := L.Next(from, L.Receive);
    assert stamped == entered.(mailbox := [L.Ext(0), L.WaveCall(wave)], transforms := stamps);
    var heard := L.Next(stamped, L.Receive);
    assert heard == stamped.(mailbox := [L.WaveCall(wave)], ext := Some(0));
    assert stamps[..1] == [stamps[0]] && stamps[..1][..0] == [];
    assert FilterAll(stamps[..1], wave) == Some(wave.(from := remote));
    var received := L.Next(heard, L.Receive);
    assert received.queue == [wave.(from := remote, agent := agent)] && received.phase.Sending?;
    RunFive(entered, from, stamped, heard, received);
  }

  lemma RunFive(entered: L.Lane, from: L.Lane, stamped: L.Lane, heard: L.Lane, received: L.Lane)
    requires L.Enabled(entered, L.Receive) && from == L.Next(entered, L.Receive)
    requires L.Enabled(from, L.Receive) && stamped == L.Next(from, L.Receive)
    requires L.Enabled(stamped, L.Receive) && heard == L.Next(stamped, L.Receive)
    requires L.Enabled(heard, L.Receive) && received == L.Next(heard, L.Receive)
    requires L.Enabled(received, L.Deliver)
    ensures L.Run(entered, [L.Receive, L.Receive, L.Receive, L.Receive, L.Deliver]) == Some(L.Next(received, L.Deliver))
  {
    var r := L.Receive;
    assert [r, r, r, r, L.Deliver] == [r] + [r, r, r, L.Deliver] && [r, r, r, L.Deliver] == [r] + [r, r, L.Deliver];
    assert [r, r, L.Deliver] == [r] + [r, L.Deliver] && [r, L.Deliver] == [r] + [L.Deliver];
    assert [L.Deliver] == [L.Deliver] + [];
    FirstThenRest(entered, r, [r, r, r, L.Deliver]);
    FirstThenRest(from, r, [r, r, L.Deliver]);
    FirstThenRest(stamped, r, [r, L.Deliver]);
    FirstThenRest(heard, r, [L.Deliver]);
    FirstThenRest(received, L.Deliver, []);
  }

  /** The same two ways, with somebody who listens at the second. */
  ghost predicate TwoListening(s: Interchange, a: Surface, agent: Agent, b: Surface, listener: L.ListenerId) {
    && |s.ways| == 2 && s.calls == [] && s.used == {} && s.dropped == []
    && IsReadyInbound(s.ways[0].inbound, a, agent) && s.ways[0].taken == 0
    && s.ways[1].outbound == L.EMPTY.(ext := Some(listener)) && InTable(s, b, 1)
  }

  lemma SomebodyCanListen(moves: seq<Move>, s: Interchange, a: Surface, agent: Agent, b: Surface,
                          listener: L.ListenerId)
    returns (more: seq<Move>, t: Interchange)
    requires Play(EMPTY_INTERCHANGE, moves) == Some(s) && TwoRegistered(s, a, agent, b)
    ensures Play(EMPTY_INTERCHANGE, more) == Some(t) && TwoListening(t, a, agent, b, listener)
  {
    more, t := Onwards(moves, s, AskMount(b, listener));
    assert t.calls == [Mount(b, listener)] && t.calls[1..] == s.calls && t.(calls := s.calls) == s;
    MountMails(t, b, listener, 1);
    var mailed := L.Next(L.EMPTY, L.Accept(L.Ext(listener)));
    assert mailed == L.EMPTY.(mailbox := [L.Ext(listener)]);
    FirstThenRest(mailed, L.Receive, []);
    assert [L.Receive] + [] == [L.Receive];
    var listening := L.EMPTY.(ext := Some(listener));
    assert [L.Ext(listener)][1..] == [] && L.Next(mailed, L.Receive) == listening;
    HandledThenLane(t, 1, mailed, [L.Receive]);
    PlayConcat(EMPTY_INTERCHANGE, more, [Handle(false)] + OutboundSteps(1, [L.Receive]));
    more, t := more + ([Handle(false)] + OutboundSteps(1, [L.Receive])), WithOutbound(s, 1, listening);
  }

  /** The wave has been through the first way and is next to be routed. */
  ghost predicate AboutToRoute(s: Interchange, b: Surface, listener: L.ListenerId, wave: Wave) {
    && |s.ways| == 2 && s.calls == [Routed(wave)] && s.dropped == []
    && s.ways[1].outbound == L.EMPTY.(ext := Some(listener)) && InTable(s, b, 1)
  }

  lemma WaveCanEnter(moves: seq<Move>, s: Interchange, a: Surface, agent: Agent, b: Surface, listener: L.ListenerId,
                     wave: Wave)
    returns (more: seq<Move>, t: Interchange)
    requires Play(EMPTY_INTERCHANGE, moves) == Some(s) && TwoListening(s, a, agent, b, listener)
    ensures Play(EMPTY_INTERCHANGE, more) == Some(t)
    ensures AboutToRoute(t, b, listener, wave.(from := a, agent := agent))
  {
    ReadyInboundHandsOut(s.ways[0].inbound, a, agent, wave);
    more, t := Onwards(moves, s, Enter(0, wave));
    var steps := [L.Receive, L.Receive, L.Receive, L.Receive, L.Deliver];
    assert t.ways[0].inbound == L.Next(s.ways[0].inbound, L.Accept(L.WaveCall(wave))) && t.ways[1] == s.ways[1];
    var lane := L.Run(t.ways[0].inbound, steps).value;
    InboundRunPlays(t, 0, steps);
    PlayConcat(EMPTY_INTERCHANGE, more, InboundSteps(0, steps));
    more, t := more + InboundSteps(0, steps), WithInbound(t, 0, lane);
    assert t.ways[0].inbound.history.handed[0].wave == wave.(from := a, agent := agent) && t.ways[0].taken == 0;
    more, t := Onwards(more, t, Relay(0, false));
  }

  /**
   * From the start and for any two remotes, any agents, any listener and any wave addressed to the second: on some run
   * both are added, the listener mounts the second, and the wave, entered through the first, is handed to that listener
   * under the first one's name and agent; nothing is dropped.
   */
  lemma RemoteReachesRemote(a: Surface, agentA: Agent, b: Surface, agentB: Agent, listener: L.ListenerId, wave: Wave)
    returns (moves: seq<Move>)
    requires wave.to == Single(b)
    ensures var played := Play(EMPTY_INTERCHANGE, moves);
            && played.Some? && |played.value.ways| == 2 && played.value.dropped == []
            && played.value.ways[1].outbound.history.handed ==
               [L.Handed(listener, wave.(from := a, agent := agentA))]
  {
    var s;
    moves, s := TwoCanRegister(a, agentA, b, agentB);
    moves, s := SomebodyCanListen(moves, s, a, agentA, b, listener);
    moves, s := WaveCanEnter(moves, s, a, agentA, b, listener, wave);
    var stamped := wave.(from := a, agent := agentA);
    assert LeavesBy(s, stamped, 1);
    RoutedLeaves(s, stamped, 1);
    var more := [Handle(false)] + OutboundSteps(1, [L.Receive, L.Deliver]);
    PlayConcat(EMPTY_INTERCHANGE, moves, more);
    moves := moves + more;
  }
}
