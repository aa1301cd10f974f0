/** First in, first out: exactly which runs of a lane keep the order, failed sends included. */
module HyperlaneOrder {
  import opened Wrappers
  import opened Transforms
  import opened HyperlaneSpec

  // ------------------------------------------------------------------ standing in order

  /** Where an id stands in a list; past the end if it is not there. */
  function Position(list: seq<nat>, id: nat): (n: nat)
    ensures n <= |list|
    ensures n < |list| <==> id in list
    ensures n < |list| ==> list[n] == id
  {
    if list == [] || list[0] == id then 0 else 1 + Position(list[1..], id)
  }

  lemma {:induction false} PositionStays(list: seq<nat>, more: seq<nat>, id: nat)
    ensures id in list ==> Position(list + more, id) == Position(list, id)
    ensures id !in list && more != [] && more[0] == id ==> Position(list + more, id) == |list|
  {
    if list == [] {
      assert list + more == more;
    } else {
      PositionStays(list[1..], more, id);
      assert (list + more)[1..] == list[1..] + more;
    }
  }

  /** The line is drawn from the list, and everyone in it stands behind those who come earlier in the list. */
  ghost predicate InOrder(line: seq<nat>, list: seq<nat>) {
    && (forall i | 0 <= i < |line| :: line[i] in list)
    && (forall i, j | 0 <= i < j < |line| :: Position(list, line[i]) < Position(list, line[j]))
  }

  /** Taking some out of the line leaves the others in order. */
  lemma OrderWithout(a: seq<nat>, b: seq<nat>, c: seq<nat>, list: seq<nat>)
    requires InOrder(a + b + c, list)
    ensures InOrder(a + c, list)
  {
    var line := a + b + c;
    assert forall i | 0 <= i < |a + c| :: (a + c)[i] == line[if i < |a| then i else i + |b|];
  }

  /** Whoever is new in the list belongs at the end of the line. */
  lemma OrderSnoc(line: seq<nat>, list: seq<nat>, id: nat)
    requires InOrder(line, list) && id !in list
    ensures InOrder(line + [id], list + [id])
  {
    forall i | 0 <= i < |line|
      ensures Position(list + [id], line[i]) == Position(list, line[i]) < |list|
    {
      PositionStays(list, [id], line[i]);
    }
    PositionStays(list, [id], id);
  }

  /** Going to the back of the line puts one out of order, unless there was nobody behind. */
  lemma BackOfTheLine(a: seq<nat>, x: nat, b: seq<nat>, list: seq<nat>)
    requires InOrder(a + [x] + b, list)
    ensures InOrder(a + b + [x], list) <==> b == []
  {
    var line, after := a + [x] + b, a + b + [x];
    if b == [] {
      assert after == line;
    } else {
      assert line[|a|] == x && line[|a| + 1] == b[0];
      assert after[|a|] == b[0] && after[|a| + |b|] == x;
    }
  }

  /** A newcomer let in ahead of somebody is out of order. */
  lemma Overtaking(a: seq<nat>, x: nat, list: seq<nat>, id: nat)
    requires x in list && id !in list
    ensures !InOrder(a + [id] + [x], list + [id])
  {
    var line := a + [id] + [x];
    PositionStays(list, [id], x);
    PositionStays(list, [id], id);
    assert line[|a|] == id && line[|a| + 1] == x;
  }

  // ------------------------------------------------------------------ the line of a lane

  /** Handed out, then queued, then mailed, then in hand: the order in which waves have left and are going to leave. */
  function Line(s: Lane): seq<nat> {
    Ids(HandedWaves(s.history.handed)) + Ids(s.queue) + Ids(MailedWaves(s.mailbox)) + Ids(InHand(s.phase))
  }

  function Accepted(s: Lane): seq<nat> {
    Ids(s.history.accepted)
  }

  /** While a wave is being taken back there is nothing it could get behind: nothing is queued and no wave is mailed. */
  predicate ReturnsAlone(s: Lane) {
    s.phase.Resetting? || s.phase.Resubmitting? ==> s.queue == [] && MailedWaves(s.mailbox) == []
  }

  ghost predicate KeepsOrder(s: Lane) {
    InOrder(Line(s), Accepted(s))
  }

  /** Order stands after a step exactly when the step leaves nothing for a returning wave to get behind. */
  ghost predicate OrderStep(s: Lane, step: Step)
    requires Enabled(s, step)
  {
    KeepsOrder(Next(s, step)) <==> ReturnsAlone(Next(s, step))
  }

  lemma AcceptedWave(s: Lane, wave: Wave)
    requires Enabled(s, Accept(WaveCall(wave)))
    requires KeepsOrder(s) && ReturnsAlone(s) && wave.id !in Accepted(s)
    ensures OrderStep(s, Accept(WaveCall(wave)))
  {
    var t := Next(s, Accept(WaveCall(wave)));
    var before := Ids(HandedWaves(s.history.handed)) + Ids(s.queue) + Ids(MailedWaves(s.mailbox));
    MailedSnoc(s.mailbox, WaveCall(wave));
    IdsConcat(MailedWaves(s.mailbox), [wave]);
    IdsConcat(s.history.accepted, [wave]);
    assert Ids([wave]) == [wave.id] && Accepted(t) == Accepted(s) + [wave.id];
    assert Line(t) == before + [wave.id] + Ids(InHand(s.phase));
    if InHand(s.phase) == [] {
      assert Line(s) == before && Line(t) == Line(s) + [wave.id];
      OrderSnoc(Line(s), Accepted(s), wave.id);
    } else {
      var x := s.phase.wave.id;
      assert Ids(InHand(s.phase)) == [x] && Line(s)[|before|] == x;
      Overtaking(before, x, Accepted(s), wave.id);
    }
  }

  /** Steps that move no wave. */
  lemma QuietStep(s: Lane, step: Step)
    requires Enabled(s, step) && KeepsOrder(s) && ReturnsAlone(s)
    requires step.Close? || step.PushReset? || (step.Accept? && !step.call.WaveCall?)
    ensures OrderStep(s, step)
  {
    var t := Next(s, step);
    if step.Accept? {
      MailedSnoc(s.mailbox, step.call);
    } else if step.PushReset? {
      MailedSnoc(s.mailbox, ResetExt);
    }
    assert InHand(t.phase) == InHand(s.phase) && MailedWaves(t.mailbox) == MailedWaves(s.mailbox);
    assert Line(t) == Line(s) && Accepted(t) == Accepted(s);
  }

  lemma ReceivedWave(s: Lane, wave: Wave)
    requires Enabled(s, Receive) && s.mailbox[0] == WaveCall(wave) && KeepsOrder(s)
    ensures KeepsOrder(Next(s, Receive))
  {
    var t, n := Next(s, Receive), Overflow(s.queue);
    var handed, kept, rest := Ids(HandedWaves(s.history.handed)), Ids(s.queue[n..]), Ids(MailedWaves(s.mailbox[1..]));
    assert MailedWaves(s.mailbox) == [wave] + MailedWaves(s.mailbox[1..]);
    IdsConcat([wave], MailedWaves(s.mailbox[1..]));
    assert s.queue == s.queue[..n] + s.queue[n..];
    IdsConcat(s.queue[..n], s.queue[n..]);
    assert Ids([wave]) == [wave.id];
    assert Line(s) == handed + Ids(s.queue[..n]) + (kept + [wave.id] + rest);
    OrderWithout(handed, Ids(s.queue[..n]), kept + [wave.id] + rest, Accepted(s));
    assert handed + (kept + [wave.id] + rest) == (handed + kept) + [wave.id] + rest;
    match FilterAll(s.transforms, wave)
    case None =>
      OrderWithout(handed + kept, [wave.id], rest, Accepted(s));
      assert Line(t) == (handed + kept) + rest;
    case Some(w) =>
      IdsConcat(s.queue[n..], [w]);
      assert Ids([w]) == [wave.id];
      assert Line(t) == (handed + kept) + [wave.id] + rest;
  }

  lemma ReceiveStep(s: Lane)
    requires Enabled(s, Receive) && KeepsOrder(s)
    ensures OrderStep(s, Receive)
  {
    if s.mailbox[0].WaveCall? {
      ReceivedWave(s, s.mailbox[0].wave);
    } else {
      TakeOther(s);
      assert Line(Next(s, Receive)) == Line(s);
    }
    assert InHand(Next(s, Receive).phase) == [];
  }

  lemma DeliverStep(s: Lane)
    requires Enabled(s, Deliver) && KeepsOrder(s)
    ensures OrderStep(s, Deliver)
  {
    HandedConcat(s.history.handed, Handed(s.ext.value, s.queue[0]));
    IdsConcat(HandedWaves(s.history.handed), [s.queue[0]]);
    assert s.queue == [s.queue[0]] + s.queue[1..];
    IdsConcat([s.queue[0]], s.queue[1..]);
    assert Line(Next(s, Deliver)) == Line(s);
  }

  lemma FailStep(s: Lane)
    requires Enabled(s, Fail) && KeepsOrder(s)
    ensures OrderStep(s, Fail)
  {
    var t, x := Next(s, Fail), s.queue[0];
    var handed, behind := Ids(HandedWaves(s.history.handed)), Ids(s.queue[1..]) + Ids(MailedWaves(s.mailbox));
    assert s.queue == [x] + s.queue[1..];
    IdsConcat([x], s.queue[1..]);
    assert Ids([x]) == [x.id];
    assert Line(s) == handed + [x.id] + behind;
    assert Line(t) == handed + behind + [x.id];
    BackOfTheLine(handed, x.id, behind, Accepted(s));
  }

  lemma ResubmitStep(s: Lane)
    requires Enabled(s, Resubmit) && KeepsOrder(s)
    ensures OrderStep(s, Resubmit)
  {
    var t, x := Next(s, Resubmit), s.phase.wave;
    var before := Ids(HandedWaves(s.history.handed)) + Ids(s.queue) + Ids(MailedWaves(s.mailbox));
    assert Ids([x]) == [x.id] && Line(s) == before + [x.id];
    if |s.mailbox| < MAILBOX {
      MailedSnoc(s.mailbox, WaveCall(x));
      IdsConcat(MailedWaves(s.mailbox), [x]);
      assert Line(t) == before + [x.id];
    } else {
      assert before + [x.id] == before + [x.id] + [];
      OrderWithout(before, [x.id], [], Accepted(s));
      assert Line(t) == before + [];
    }
  }

  /** From a state in order, where a wave only returns alone, every step decides its own outcome that way. */
  lemma StepKeepsOrderExactly(s: Lane, step: Step)
    requires Enabled(s, step) && KeepsOrder(s) && ReturnsAlone(s)
    requires step.Accept? && step.call.WaveCall? ==> step.call.wave.id !in Accepted(s)
    ensures OrderStep(s, step)
  {
    match step
    case Accept(call) =>
      if call.WaveCall? {
        AcceptedWave(s, call.wave);
      } else {
        QuietStep(s, step);
      }
    case Close(_) => QuietStep(s, step);
    case PushReset => QuietStep(s, step);
    case Receive => ReceiveStep(s);
    case Deliver => DeliverStep(s);
    case Fail => FailStep(s);
    case Resubmit => ResubmitStep(s);
  }

  // ------------------------------------------------------------------ whole runs

  ghost predicate Distinct(ids: seq<nat>) {
    forall i, j | 0 <= i < j < |ids| :: ids[i] != ids[j]
  }

  /** After the first `n` steps. */
  function After(steps: seq<Step>, n: nat): (s: Lane)
    requires Run(EMPTY, steps).Some? && n <= |steps|
    ensures Run(EMPTY, steps[..n]) == Some(s)
  {
    PrefixRuns(EMPTY, steps, n);
    Run(EMPTY, steps[..n]).value
  }

  lemma {:induction false} PrefixRuns(s: Lane, steps: seq<Step>, n: nat)
    requires Run(s, steps).Some? && n <= |steps|
    ensures Run(s, steps[..n]).Some?
    decreases |steps| - n
  {
    if n == |steps| {
      assert steps[..n] == steps;
    } else {
      PrefixRuns(s, steps, n + 1);
      assert steps[..n + 1][..n] == steps[..n];
    }
  }

  lemma NextOfRun(steps: seq<Step>, n: nat)
    requires Run(EMPTY, steps).Some? && n < |steps|
    ensures Enabled(After(steps, n), steps[n]) && After(steps, n + 1) == Next(After(steps, n), steps[n])
  {
    LastStep(EMPTY, steps, n, After(steps, n), After(steps, n + 1));
  }

  lemma LastStep(s: Lane, steps: seq<Step>, n: nat, before: Lane, after: Lane)
    requires n < |steps| && Run(s, steps[..n]) == Some(before) && Run(s, steps[..n + 1]) == Some(after)
    ensures Enabled(before, steps[n]) && after == Next(before, steps[n])
  {
    assert steps[..n + 1][..n] == steps[..n];
  }

  lemma {:induction false} AcceptedGrows(steps: seq<Step>, n: nat)
    requires Run(EMPTY, steps).Some? && n <= |steps|
    ensures Accepted(After(steps, n)) <= Accepted(Run(EMPTY, steps).value)
    decreases |steps| - n
  {
    if n == |steps| {
      assert steps[..n] == steps;
    } else {
      NextOfRun(steps, n);
      AcceptedGrows(steps, n + 1);
      var s, step := After(steps, n), steps[n];
      if step.Accept? && step.call.WaveCall? {
        IdsConcat(s.history.accepted, [step.call.wave]);
      } else {
        SameAccepted(s, step);
      }
    }
  }

  lemma SameAccepted(s: Lane, step: Step)
    requires Enabled(s, step) && !(step.Accept? && step.call.WaveCall?)
    ensures Accepted(Next(s, step)) == Accepted(s)
  {
    if !step.Accept? {
      OnlyAcceptAccepts(s, step);
    }
  }

  lemma NewcomerIsNew(steps: seq<Step>, n: nat)
    requires Run(EMPTY, steps).Some? && Distinct(Accepted(Run(EMPTY, steps).value)) && n < |steps|
    requires steps[n].Accept? && steps[n].call.WaveCall?
    ensures steps[n].call.wave.id !in Accepted(After(steps, n))
  {
    var all, s, wave := Accepted(Run(EMPTY, steps).value), After(steps, n), steps[n].call.wave;
    NextOfRun(steps, n);
    AcceptedGrows(steps, n + 1);
    IdsConcat(s.history.accepted, [wave]);
    assert Ids([wave]) == [wave.id];
    var before := Accepted(s);
    assert before + [wave.id] <= all;
    assert all[|before|] == (before + [wave.id])[|before|] == wave.id;
    forall i | 0 <= i < |before|
      ensures before[i] != wave.id
    {
      assert all[i] == (before + [wave.id])[i] == before[i];
    }
  }

  lemma StepOfRun(steps: seq<Step>, n: nat)
    requires Run(EMPTY, steps).Some? && Distinct(Accepted(Run(EMPTY, steps).value)) && n < |steps|
    requires KeepsOrder(After(steps, n)) && ReturnsAlone(After(steps, n))
    ensures KeepsOrder(After(steps, n + 1)) <==> ReturnsAlone(After(steps, n + 1))
  {
    NextOfRun(steps, n);
    if steps[n].Accept? && steps[n].call.WaveCall? {
      NewcomerIsNew(steps, n);
    }
    StepKeepsOrderExactly(After(steps, n), steps[n]);
  }

  lemma OrderAtFirst(steps: seq<Step>)
    requires Run(EMPTY, steps).Some?
    ensures KeepsOrder(After(steps, 0)) && ReturnsAlone(After(steps, 0))
  {
    assert steps[..0] == [];
    assert Line(EMPTY) == [];
  }

  ghost predicate OrderedUpTo(steps: seq<Step>, n: nat)
    requires Run(EMPTY, steps).Some? && n <= |steps|
  {
    forall k | 0 <= k <= n :: KeepsOrder(After(steps, k))
  }

  ghost predicate AloneUpTo(steps: seq<Step>, n: nat)
    requires Run(EMPTY, steps).Some? && n <= |steps|
  {
    forall k | 0 <= k <= n :: ReturnsAlone(After(steps, k))
  }

  lemma OneFurther(steps: seq<Step>, n: nat)
    requires Run(EMPTY, steps).Some? && n < |steps|
    ensures OrderedUpTo(steps, n + 1) <==> OrderedUpTo(steps, n) && KeepsOrder(After(steps, n + 1))
    ensures AloneUpTo(steps, n + 1) <==> AloneUpTo(steps, n) && ReturnsAlone(After(steps, n + 1))
    ensures OrderedUpTo(steps, n) ==> KeepsOrder(After(steps, n))
    ensures AloneUpTo(steps, n) ==> ReturnsAlone(After(steps, n))
  {
  }

  lemma {:induction false} OrderUpTo(steps: seq<Step>, n: nat)
    requires Run(EMPTY, steps).Some? && Distinct(Accepted(Run(EMPTY, steps).value)) && n <= |steps|
    ensures OrderedUpTo(steps, n) <==> AloneUpTo(steps, n)
  {
    if n == 0 {
      OrderAtFirst(steps);
    } else {
      OrderUpTo(steps, n - 1);
      OneFurther(steps, n - 1);
      if OrderedUpTo(steps, n - 1) {
        StepOfRun(steps, n - 1);
      }
    }
  }

  /**
   * First in, first out, over every run and with any number of failed sends: what has been handed out, followed by what
   * is queued, mailed and in hand, stands in the order of acceptance all along exactly when, all along, a wave is only
   * taken back while nothing is queued and no wave is mailed.
   */
  lemma {:induction false} OrderKeptExactly(steps: seq<Step>)
    requires Run(EMPTY, steps).Some? && Distinct(Accepted(Run(EMPTY, steps).value))
    ensures OrderedUpTo(steps, |steps|) <==> AloneUpTo(steps, |steps|)
  {
    OrderUpTo(steps, |steps|);
  }
}
