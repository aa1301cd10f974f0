/** That a lane gets somewhere: how much it takes in, and that with an open listener all of it can be handed out. */
module HyperlaneFlow {
  import opened Wrappers
  import opened Transforms
  import opened HyperlaneSpec

  lemma RunSnoc(s: Lane, steps: seq<Step>, t: Lane, step: Step)
    requires Run(s, steps) == Some(t) && Enabled(t, step)
    ensures Run(s, steps + [step]) == Some(Next(t, step))
  {
    assert (steps + [step])[..|steps|] == steps;
  }

  // ------------------------------------------------------------------ how much a lane takes in

  function Accepts(calls: seq<Call>): seq<Step> {
    seq(|calls|, i requires 0 <= i < |calls| => Accept(calls[i]))
  }

  /** A lane whose task does nothing takes in exactly as many calls, of whatever kind, as make 1024 in its mailbox. */
  lemma {:induction false} MailboxHoldsExactly(s: Lane, calls: seq<Call>)
    requires !s.phase.Panicked? && |s.mailbox| <= 1024
    ensures Run(s, Accepts(calls)).Some? <==> |s.mailbox| + |calls| <= 1024
    ensures |s.mailbox| + |calls| <= 1024 ==>
              Run(s, Accepts(calls)).value.mailbox == s.mailbox + calls && !Run(s, Accepts(calls)).value.phase.Panicked?
    decreases |calls|
  {
    if calls == [] {
      assert s.mailbox + [] == s.mailbox;
    } else {
      var n := |calls| - 1;
      MailboxHoldsExactly(s, calls[..n]);
      assert Accepts(calls)[..n] == Accepts(calls[..n]);
      assert s.mailbox + calls[..n] + [calls[n]] == s.mailbox + calls;
    }
  }

  /** A lane whose task has panicked takes in nothing more and does nothing more; at most listeners go. */
  lemma {:induction false} PanickedStaysDead(s: Lane, steps: seq<Step>)
    requires s.phase.Panicked? && Run(s, steps).Some?
    ensures forall i | 0 <= i < |steps| :: steps[i].Close?
    ensures Run(s, steps).value == s.(closed := Run(s, steps).value.closed)
  {
    if steps != [] {
      var init := steps[..|steps| - 1];
      PanickedStaysDead(s, init);
      assert forall i | 0 <= i < |init| :: steps[i] == init[i];
    }
  }

  // ------------------------------------------------------------------ getting everything out

  /**
   * A lane without transforms whose listener is open, with no reset and no closed listener in its mailbox, that is not
   * in the middle of taking a wave back.
   */
  ghost predicate Flows(s: Lane) {
    && s.transforms == []
    && (s.phase.Receiving? || s.phase.Sending?)
    && s.ext.Some? && s.ext.value !in s.closed
    && (s.phase.Sending? <==> s.queue != [])
    && (forall i | 0 <= i < |s.mailbox| ::
          && !s.mailbox[i].ResetExt? && !s.mailbox[i].TransformCall?
          && (s.mailbox[i].Ext? ==> s.mailbox[i].listener !in s.closed))
  }

  /** The waves a flowing lane has handed out, is about to hand out, and has yet to receive. */
  function Through(s: Lane): seq<Wave> {
    HandedWaves(s.history.handed) + s.queue + MailedWaves(s.mailbox)
  }

  lemma FlowDelivers(s: Lane)
    requires Flows(s) && s.phase.Sending?
    ensures Enabled(s, Deliver)
    ensures var t := Next(s, Deliver);
            && Flows(t) && Through(t) == Through(s) && t.closed == s.closed
            && t.mailbox == s.mailbox && |t.queue| < |s.queue| && t.ext == s.ext
  {
    HandedConcat(s.history.handed, Handed(s.ext.value, s.queue[0]));
    assert s.queue == [s.queue[0]] + s.queue[1..];
  }

  lemma FlowReceives(s: Lane)
    requires Flows(s) && s.phase.Receiving? && s.mailbox != []
    ensures Enabled(s, Receive)
    ensures var t := Next(s, Receive);
            && Flows(t) && Through(t) == Through(s) && t.closed == s.closed
            && t.mailbox == s.mailbox[1..]
            && t.ext == if s.mailbox[0].Ext? then Some(s.mailbox[0].listener) else s.ext
  {
    var t, call := Next(s, Receive), s.mailbox[0];
    assert forall i | 0 <= i < |t.mailbox| :: t.mailbox[i] == s.mailbox[i + 1];
    assert MailedWaves(s.mailbox) == (if call.WaveCall? then [call.wave] else []) + MailedWaves(s.mailbox[1..]);
    if call.WaveCall? {
      assert FilterAll([], call.wave) == Some(call.wave);
      assert t.queue == [call.wave];
    }
  }

  ghost predicate TaskOnly(steps: seq<Step>) {
    forall i | 0 <= i < |steps| :: !steps[i].Accept? && !steps[i].Close?
  }

  lemma FirstThenRest(s: Lane, step: Step, rest: seq<Step>)
    requires Enabled(s, step)
    ensures Run(s, [step] + rest) == Run(Next(s, step), rest)
  {
    assert [step][..0] == [];
    assert Run(s, [step]) == Some(Next(s, step));
    RunConcat(s, [step], rest);
  }

  /** Left to itself such a lane can hand out everything it holds, in order. */
  lemma {:induction false} FlowEmpties(s: Lane) returns (steps: seq<Step>, t: Lane)
    requires Flows(s)
    ensures TaskOnly(steps) && Run(s, steps) == Some(t)
    ensures Flows(t) && t.mailbox == [] && t.queue == [] && t.closed == s.closed
    ensures s.history.handed <= t.history.handed && HandedWaves(t.history.handed) == Through(s)
    ensures (forall i | 0 <= i < |s.mailbox| :: !s.mailbox[i].Ext?) ==>
              && t.ext == s.ext
              && forall k | |s.history.handed| <= k < |t.history.handed| :: t.history.handed[k].listener == s.ext.value
    decreases |s.mailbox|, |s.queue|
  {
    if s.phase.Receiving? && s.mailbox == [] {
      steps, t := [], s;
      assert MailedWaves([]) == [];
    } else {
      var step := if s.phase.Sending? then Deliver else Receive;
      if s.phase.Sending? {
        FlowDelivers(s);
      } else {
        FlowReceives(s);
      }
      var rest;
      rest, t := FlowEmpties(Next(s, step));
      FirstThenRest(s, step, rest);
      steps := [step] + rest;
    }
  }

  /** And one more wave, once mailed, goes to the listener after everything else. */
  lemma HandsOver(s: Lane, wave: Wave)
    requires Flows(s) && s.mailbox == [] && s.queue == []
    ensures Enabled(s, Accept(WaveCall(wave)))
    ensures var mailed := Next(s, Accept(WaveCall(wave)));
            && Run(mailed, [Receive, Deliver]).Some?
            && var t := Run(mailed, [Receive, Deliver]).value;
            && Flows(t) && t.mailbox == [] && t.queue == [] && t.ext == s.ext
            && t.history.handed == s.history.handed + [Handed(s.ext.value, wave)]
  {
    var mailed := Next(s, Accept(WaveCall(wave)));
    assert FilterAll([], wave) == Some(wave);
    assert [Receive, Deliver] == [Receive] + [Deliver] && [Deliver] == [Deliver] + [];
    assert mailed.mailbox == [WaveCall(wave)];
    FirstThenRest(mailed, Receive, [Deliver]);
    assert Next(mailed, Receive).queue == [wave];
    FirstThenRest(Next(mailed, Receive), Deliver, []);
  }

  // ------------------------------------------------------------------ listeners that have gone and others

  /** What a listener has been handed. */
  function HandedTo(handed: seq<Handed>, listener: ListenerId): seq<Wave> {
    if handed == [] then []
    else
      var last := handed[|handed| - 1];
      HandedTo(handed[..|handed| - 1], listener) + if last.listener == listener then [last.wave] else []
  }

  lemma ClosedStep(s: Lane, step: Step, listener: ListenerId)
    requires Enabled(s, step) && listener in s.closed
    ensures listener in Next(s, step).closed
    ensures HandedTo(Next(s, step).history.handed, listener) == HandedTo(s.history.handed, listener)
  {
    if step.Deliver? {
      var handed := Next(s, step).history.handed;
      assert handed[..|handed| - 1] == s.history.handed;
    }
  }

  /** From any state: a listener that has gone is handed nothing any more. */
  lemma {:induction false} GoneGetsNothing(s: Lane, steps: seq<Step>, listener: ListenerId)
    requires Run(s, steps).Some? && listener in s.closed
    ensures listener in Run(s, steps).value.closed
    ensures HandedTo(Run(s, steps).value.history.handed, listener) == HandedTo(s.history.handed, listener)
  {
    if steps != [] {
      var init := steps[..|steps| - 1];
      GoneGetsNothing(s, init, listener);
      ClosedStep(Run(s, init).value, steps[|steps| - 1], listener);
    }
  }

  /** As long as no listener goes, no send fails. */
  lemma {:induction false} FailuresHaveGoneListeners(steps: seq<Step>)
    requires Run(EMPTY, steps).Some? && forall i | 0 <= i < |steps| :: !steps[i].Close?
    ensures NeverFails(steps) && Run(EMPTY, steps).value.closed == {}
  {
    if steps != [] {
      var init := steps[..|steps| - 1];
      FailuresHaveGoneListeners(init);
      assert forall i | 0 <= i < |init| :: steps[i] == init[i];
    }
  }

  /** A task that waits for mail has nothing queued, unless nobody is attached. */
  ghost predicate Waits(s: Lane) {
    s.phase.Receiving? ==> s.queue == [] || s.ext.None?
  }

  lemma {:induction false} AlwaysWaits(steps: seq<Step>)
    requires Run(EMPTY, steps).Some?
    ensures Waits(Run(EMPTY, steps).value)
  {
    if steps != [] {
      AlwaysWaits(steps[..|steps| - 1]);
    }
  }

  /** On every run: no wave is trimmed while a listener is attached. */
  lemma TrimmedOnlyUnheard(steps: seq<Step>, step: Step)
    requires Run(EMPTY, steps + [step]).Some? && Run(EMPTY, steps).Some? && Run(EMPTY, steps).value.ext.Some?
    ensures Run(EMPTY, steps + [step]).value.history.trimmed == Run(EMPTY, steps).value.history.trimmed
  {
    assert (steps + [step])[..|steps|] == steps;
    AlwaysWaits(steps);
  }
}
