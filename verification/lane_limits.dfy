/** Which listener a lane has, and what a failed send costs. */
module HyperlaneLimits {
  import opened Wrappers
  import opened Loc
  import opened Transforms
  import opened HyperlaneSpec

  // ------------------------------------------------------------------ the attached listener

  /** The calls the task has taken from its mailbox along a run. */
  function ReceivedCalls(s: Lane, steps: seq<Step>): seq<Call> {
    if steps == [] then []
    else
      var init, last := steps[..|steps| - 1], steps[|steps| - 1];
      ReceivedCalls(s, init) +
      match Run(s, init)
      case None => []
      case Some(t) => if last.Receive? && t.mailbox != [] then [t.mailbox[0]] else []
  }

  /** The last listener attached, unless a reset came after it. */
  function AttachedBy(calls: seq<Call>): Option<ListenerId> {
    if calls == [] then None
    else
      match calls[|calls| - 1]
      case Ext(listener) => Some(listener)
      case ResetExt => None
      case _ => AttachedBy(calls[..|calls| - 1])
  }

  lemma ListenerStep(s: Lane, step: Step)
    requires Enabled(s, step)
    ensures Next(s, step).ext ==
            if step.Receive? && s.mailbox[0].Ext? then Some(s.mailbox[0].listener)
            else if step.Receive? && s.mailbox[0].ResetExt? then None
            else s.ext
  {
  }

  /** Over every run, failures included, only what was received last of the two kinds decides who listens. */
  lemma {:induction false} ListenerIsLastAttached(steps: seq<Step>)
    requires Run(EMPTY, steps).Some?
    ensures Run(EMPTY, steps).value.ext == AttachedBy(ReceivedCalls(EMPTY, steps))
  {
    if steps != [] {
      var init, last := steps[..|steps| - 1], steps[|steps| - 1];
      var s, calls := Run(EMPTY, init).value, ReceivedCalls(EMPTY, init);
      ListenerIsLastAttached(init);
      ListenerStep(s, last);
      if last.Receive? {
        assert (calls + [s.mailbox[0]])[..|calls|] == calls;
      } else {
        assert calls + [] == calls;
      }
    }
  }

  lemma {:induction false} AttachedUnlessReset(calls: seq<Call>, i: nat)
    requires i < |calls| && calls[i].Ext? && forall k | i < k < |calls| :: !calls[k].Ext?
    ensures AttachedBy(calls) ==
            if exists k :: i < k < |calls| && calls[k].ResetExt? then None else Some(calls[i].listener)
    decreases |calls|
  {
    var n := |calls| - 1;
    if i < n && !calls[n].ResetExt? {
      AttachedUnlessReset(calls[..n], i);
      assert forall k | i < k < n :: calls[..n][k] == calls[k];
    }
  }

  /**
   * On any run an attached listener that no later one replaced is forgotten exactly when a reset is received after it.
   */
  lemma ForgottenExactlyByReset(steps: seq<Step>, i: nat)
    requires Run(EMPTY, steps).Some? && i < |ReceivedCalls(EMPTY, steps)|
    requires var calls := ReceivedCalls(EMPTY, steps); calls[i].Ext? && forall k | i < k < |calls| :: !calls[k].Ext?
    ensures var calls, ext := ReceivedCalls(EMPTY, steps), Run(EMPTY, steps).value.ext;
            && (ext == None <==> exists k :: i < k < |calls| && calls[k].ResetExt?)
            && (ext != None ==> ext == Some(calls[i].listener))
  {
    ListenerIsLastAttached(steps);
    AttachedUnlessReset(ReceivedCalls(EMPTY, steps), i);
  }

  function Resets(calls: seq<Call>): nat {
    if calls == [] then 0 else Resets(calls[..|calls| - 1]) + if calls[|calls| - 1].ResetExt? then 1 else 0
  }

  lemma {:induction false} ResetsConcat(a: seq<Call>, b: seq<Call>)
    ensures Resets(a + b) == Resets(a) + Resets(b)
    decreases |b|
  {
    if b == [] {
      assert a + b == a;
    } else {
      ResetsConcat(a, b[..|b| - 1]);
      assert (a + b)[..|a + b| - 1] == a + b[..|b| - 1];
    }
  }

  lemma ResetsOne(call: Call)
    ensures Resets([call]) == if call.ResetExt? then 1 else 0
  {
    assert [call][..0] == [];
  }

  /** The failed sends and the resets that others asked for. */
  function Causes(steps: seq<Step>): nat {
    if steps == [] then 0
    else
      var last := steps[|steps| - 1];
      Causes(steps[..|steps| - 1]) + if last.Fail? || last == Accept(ResetExt) then 1 else 0
  }

  /** Resets received, in the mailbox, or still to be mailed. */
  function ResetsAbout(s: Lane, received: seq<Call>): nat {
    Resets(received) + Resets(s.mailbox) + if s.phase.Resetting? then 1 else 0
  }

  lemma ResetsStep(s: Lane, step: Step, received: seq<Call>)
    requires Enabled(s, step)
    ensures ResetsAbout(Next(s, step), received + if step.Receive? then [s.mailbox[0]] else []) ==
            ResetsAbout(s, received) + if step.Fail? || step == Accept(ResetExt) then 1 else 0
  {
    match step
    case Accept(call) =>
      ResetsConcat(s.mailbox, [call]);
      ResetsOne(call);
      assert received + [] == received;
    case Receive =>
      assert s.mailbox == [s.mailbox[0]] + s.mailbox[1..];
      ResetsConcat([s.mailbox[0]], s.mailbox[1..]);
      ResetsConcat(received, [s.mailbox[0]]);
      ResetsOne(s.mailbox[0]);
    case PushReset =>
      ResetsConcat(s.mailbox, [ResetExt]);
      ResetsOne(ResetExt);
      assert received + [] == received;
    case Resubmit =>
      ResetsConcat(s.mailbox, [WaveCall(s.phase.wave)]);
      ResetsOne(WaveCall(s.phase.wave));
      assert received + [] == received;
    case _ =>
      assert received + [] == received;
  }

  /**
   * Every reset, received or on its way, has a failed send or an outside request behind it, and the other way round.
   */
  lemma {:induction false} ResetsHaveCauses(steps: seq<Step>)
    requires Run(EMPTY, steps).Some?
    ensures ResetsAbout(Run(EMPTY, steps).value, ReceivedCalls(EMPTY, steps)) == Causes(steps)
  {
    if steps != [] {
      var init, last := steps[..|steps| - 1], steps[|steps| - 1];
      ResetsHaveCauses(init);
      ResetsStep(Run(EMPTY, init).value, last, ReceivedCalls(EMPTY, init));
    }
  }

  lemma {:induction false} NoneCounted(calls: seq<Call>)
    requires Resets(calls) == 0
    ensures forall k | 0 <= k < |calls| :: !calls[k].ResetExt?
  {
    if calls != [] {
      NoneCounted(calls[..|calls| - 1]);
      assert calls == calls[..|calls| - 1] + [calls[|calls| - 1]];
    }
  }

  /** While no send fails and nobody asks for a reset, whoever attached last stays attached. */
  lemma ListenersStay(steps: seq<Step>, i: nat)
    requires Run(EMPTY, steps).Some? && Causes(steps) == 0 && i < |ReceivedCalls(EMPTY, steps)|
    requires var calls := ReceivedCalls(EMPTY, steps); calls[i].Ext? && forall k | i < k < |calls| :: !calls[k].Ext?
    ensures Run(EMPTY, steps).value.ext == Some(ReceivedCalls(EMPTY, steps)[i].listener)
  {
    ResetsHaveCauses(steps);
    NoneCounted(ReceivedCalls(EMPTY, steps));
    ForgottenExactlyByReset(steps, i);
  }

  // ------------------------------------------------------------------ what a failure costs

  const HOME: Surface := ToSurface(ROOT)
  const FIRST := Wave(1, HOME, Single(HOME), Anonymous)
  const SECOND := Wave(2, HOME, Single(HOME), Anonymous)

  lemma Then(steps: seq<Step>, step: Step) returns (more: seq<Step>)
    requires Run(EMPTY, steps).Some? && Enabled(Run(EMPTY, steps).value, step)
    ensures Run(EMPTY, more) == Some(Next(Run(EMPTY, steps).value, step))
  {
    more := steps + [step];
    assert more[..|steps|] == steps;
  }

  /** The first wave is queued, its listener is gone, a second listener and a second wave are in the mailbox. */
  lemma BeforeTheFailure() returns (steps: seq<Step>)
    ensures var s := Run(EMPTY, steps);
            s.Some? && s.value == EMPTY.(mailbox := [Ext(0), Ext(1), WaveCall(SECOND)], queue := [FIRST], closed := {0},
                                         history := s.value.history)
    ensures Run(EMPTY, steps).value.history == EMPTY.history.(accepted := [FIRST, SECOND], received := [FIRST])
  {
    assert FilterAll([], FIRST) == Some(FIRST);
    steps := Then([], Accept(WaveCall(FIRST)));
    steps := Then(steps, Receive);
    steps := Then(steps, Close(0));
    steps := Then(steps, Accept(Ext(0)));
    steps := Then(steps, Accept(Ext(1)));
    steps := Then(steps, Accept(WaveCall(SECOND)));
  }

  lemma AfterTheFailure() returns (steps: seq<Step>)
    ensures var s := Run(EMPTY, steps);
            s.Some? && s.value ==
            EMPTY.(mailbox := [Ext(1), WaveCall(SECOND), ResetExt, WaveCall(FIRST)], ext := Some(0),
                                         closed := {0}, history := s.value.history)
    ensures Run(EMPTY, steps).value.history == EMPTY.history.(accepted := [FIRST, SECOND], received := [FIRST])
  {
    steps := BeforeTheFailure();
    assert [Ext(0), Ext(1), WaveCall(SECOND)][1..] == [Ext(1), WaveCall(SECOND)];
    assert [FIRST][1..] == [];
    steps := Then(steps, Receive);
    steps := Then(steps, Fail);
    steps := Then(steps, PushReset);
    steps := Then(steps, Resubmit);
  }

  /**
   * After one failed send the second wave overtakes the first, and the late reset forgets a listener that is still
   * there: the first wave stays queued although listener 1 never closed.
   */
  lemma FailureReordersAndForgets() returns (steps: seq<Step>)
    ensures var s := Run(EMPTY, steps);
            && s.Some?
            && s.value.history.accepted == [FIRST, SECOND]
            && s.value.history.handed == [Handed(1, SECOND)]
            && s.value.queue == [FIRST]
            && s.value.ext == None && 1 !in s.value.closed
  {
    steps := AfterTheFailure();
    assert FilterAll([], SECOND) == Some(SECOND) && FilterAll([], FIRST) == Some(FIRST);
    steps := Then(steps, Receive);
    assert Run(EMPTY, steps).value.mailbox == [WaveCall(SECOND), ResetExt, WaveCall(FIRST)];
    steps := Then(steps, Receive);
    assert Run(EMPTY, steps).value.mailbox == [ResetExt, WaveCall(FIRST)];
    steps := Then(steps, Deliver);
    steps := Then(steps, Receive);
    assert Run(EMPTY, steps).value.mailbox == [WaveCall(FIRST)];
    steps := Then(steps, Receive);
  }
}
