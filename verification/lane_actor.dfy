/** The hyperlane task and the hyperway as objects; every step is tied to the step function of `HyperlaneSpec`. */
module HyperlaneActor {
  import opened Wrappers
  import opened Loc
  import opened Transforms
  import opened HyperlaneSpec

  /** Once a transform panics, the transforms after it are never reached. */
  lemma PanicStays(transforms: seq<Transform>, i: nat, wave: Wave)
    requires i <= |transforms| && FilterAll(transforms[..i], wave).None?
    ensures FilterAll(transforms, wave).None?
  {
    assert transforms == transforms[..i] + transforms[i..];
    FilterAllConcat(transforms[..i], transforms[i..], wave);
  }

  /** The task's next step after a call, or between two sends. */
  function SendStep(s: Lane): Step {
    match s.phase
    case Resetting(_) => PushReset
    case Resubmitting(_) => Resubmit
    case _ => if s.ext.Some? && s.ext.value in s.closed then Fail else Deliver
  }

  /** What a drain leaves in the mailbox when the listener is gone. */
  function TakenBack(queue: seq<Wave>): seq<Call> {
    if queue == [] then [] else [ResetExt, WaveCall(queue[0])] + TakenBack(queue[1..])
  }

  function AllHanded(listener: ListenerId, queue: seq<Wave>): seq<Handed> {
    if queue == [] then [] else [Handed(listener, queue[0])] + AllHanded(listener, queue[1..])
  }

  /** A step that accepts nothing moves every wave at most from one place to another. */
  lemma TurnConserves(steps: seq<Step>, s: Lane, step: Step)
    requires Run(EMPTY, steps) == Some(s) && Enabled(s, step) && !step.Accept?
    ensures forall id :: Everywhere(Next(s, step), id) == Everywhere(s, id)
  {
    forall id
      ensures Everywhere(Next(s, step), id) == Everywhere(s, id)
    {
      WavesAreConserved(steps, id);
      StepConserves(s, step, id);
      OnlyAcceptAccepts(s, step);
    }
  }

  lemma RunSnoc(steps: seq<Step>, s: Lane, step: Step)
    requires Run(EMPTY, steps) == Some(s) && Enabled(s, step)
    ensures Run(EMPTY, steps + [step]) == Some(Next(s, step))
  {
    assert (steps + [step])[..|steps|] == steps;
  }

  class Hyperlane {
    var mailbox: seq<Call>
    var ext: Option<ListenerId>
    var queue: seq<Wave>
    var transforms: seq<Transform>
    var phase: Phase
    var closed: set<ListenerId>
    ghost var history: History
    ghost var steps: seq<Step>

    ghost function State(): Lane
      reads this
    {
      Lane(mailbox, ext, queue, transforms, phase, closed, history)
    }

    /** The lane is where the steps taken so far lead, so that what holds over every run holds of it. */
    ghost predicate Valid()
      reads this
    {
      Run(EMPTY, steps) == Some(State())
    }

    /** What the runs promise: bounds, and every accepted wave in exactly as many places as it was accepted times. */
    lemma Promises(id: nat)
      requires Valid()
      ensures |queue| <= 1025 && |mailbox| <= 1024
      ensures Everywhere(State(), id) == Count(history.accepted, id)
    {
      LaneIsBounded(steps);
      WavesAreConserved(steps, id);
    }

    constructor ()
      ensures State() == EMPTY && Valid() && steps == []
    {
      steps := [];
      mailbox, ext, queue, transforms, phase, closed := [], None, [], [], Receiving, {};
      history := History([], [], [], [], [], []);
    }

    /** Sending into the mailbox from outside; a full or abandoned mailbox does not take the call. */
    method TrySend(call: Call) returns (sent: bool)
      modifies this
      ensures sent <==> old(Enabled(State(), Accept(call)))
      ensures State() == if sent then Next(old(State()), Accept(call)) else old(State())
      ensures old(Valid()) ==> Valid()
      ensures steps == if sent then old(steps) + [Accept(call)] else old(steps)
    {
      sent := |mailbox| < MAILBOX && !phase.Panicked?;
      if sent {
        mailbox := mailbox + [call];
        if call.WaveCall? {
          history := history.(accepted := history.accepted + [call.wave]);
        }
        steps := steps + [Accept(call)];
        assert steps[..|steps| - 1] == old(steps);
      }
    }

    /** The other end of a listener's channel is dropped; no wave moves. */
    method CloseListener(listener: ListenerId)
      requires Valid()
      modifies this
      ensures Valid() && steps == old(steps) + [Close(listener)]
      ensures closed == old(closed) + {listener} && forall id :: Everywhere(State(), id) == old(Everywhere(State(), id))
    {
      RunSnoc(steps, State(), Close(listener));
      TurnConserves(steps, State(), Close(listener));
      steps := steps + [Close(listener)];
      closed := closed + {listener};
    }

    method DropOldest()
      modifies this`queue, this`history
      ensures queue == old(queue)[Overflow(old(queue))..]
      ensures history == old(history).(trimmed := old(history).trimmed + old(queue)[..Overflow(old(queue))])
    {
      ghost var dropped := 0;
      while |queue| > KEEP
        invariant dropped <= Overflow(old(queue)) && queue == old(queue)[dropped..]
        invariant history == old(history).(trimmed := old(history).trimmed + old(queue)[..dropped])
      {
        history := history.(trimmed := history.trimmed + [queue[0]]);
        queue := queue[1..];
        dropped := dropped + 1;
        assert old(queue)[..dropped] == old(queue)[..dropped - 1] + [old(queue)[dropped - 1]];
      }
    }

    /** One turn of the task's loop: take a call, act on it, and look whether there is something to send. */
    method HandleCall()
      requires Enabled(State(), Receive)
      modifies this
      ensures State() == Next(old(State()), Receive)
      ensures old(Valid()) ==> Valid() && steps == old(steps) + [Receive]
    {
      if Valid() {
        RunSnoc(steps, State(), Receive);
      }
      steps := steps + [Receive];
      var call := mailbox[0];
      mailbox := mailbox[1..];
      match call {
        case Ext(listener) =>
          ext := Some(listener);
        case TransformCall(transform) =>
          transforms := transforms + [transform];
        case ResetExt =>
          ext := None;
        case Drain =>
        case WaveCall(original) =>
          DropOldest();
          var wave := original;
          for i := 0 to |transforms|
            invariant FilterAll(transforms[..i], original) == Some(wave)
            invariant queue == old(queue)[Overflow(old(queue))..] && transforms == old(transforms)
            invariant mailbox == old(mailbox)[1..] && ext == old(ext) && phase == old(phase) && closed == old(closed)
            invariant history == old(history).(trimmed := old(history).trimmed + old(queue)[..Overflow(old(queue))])
          {
            assert transforms[..i + 1][..i] == transforms[..i];
            match transforms[i].Filter(wave)
            case None =>
              PanicStays(transforms, i + 1, original);
              phase := Panicked;
              history := history.(lost := history.lost + [original]);
              return;
            case Some(filtered) =>
              wave := filtered;
          }
          assert transforms[..|transforms|] == transforms;
          queue := queue + [wave];
          history := history.(received := history.received + [wave]);
      }
      Rest();
    }

    method Rest()
      modifies this`phase
      ensures State() == Resting(old(State()))
    {
      phase := if queue != [] && ext.Some? then Sending else Receiving;
    }

    /**
     * One turn of the drain: the head of the queue is sent, or the task is on its way to take back a wave that could
     * not be. Whichever it is, the wave does not get lost or doubled.
     */
    method SendTurn()
      requires Valid() && Enabled(State(), SendStep(State()))
      modifies this
      ensures Valid() && steps == old(steps) + [SendStep(old(State()))]
      ensures forall id :: Everywhere(State(), id) == old(Everywhere(State(), id))
    {
      ghost var step := SendStep(State());
      RunSnoc(steps, State(), step);
      TurnConserves(steps, State(), step);
      steps := steps + [step];
      if phase.Resetting? {
        mailbox := mailbox + [ResetExt];
        phase := Resubmitting(phase.wave);
      } else if phase.Resubmitting? {
        if |mailbox| < MAILBOX {
          mailbox := mailbox + [WaveCall(phase.wave)];
        } else {
          history := history.(refused := history.refused + [phase.wave]);
        }
        Rest();
      } else {
        var wave := queue[0];
        queue := queue[1..];
        if ext.value in closed {
          phase := Resetting(wave);
        } else {
          history := history.(handed := history.handed + [Handed(ext.value, wave)]);
          Rest();
        }
      }
    }

    /** The head of the queue goes to an open listener. */
    method SendOpen()
      requires Valid() && phase.Sending? && queue != [] && ext.Some? && ext.value !in closed
      modifies this
      ensures Valid() && ext == old(ext) && closed == old(closed) && mailbox == old(mailbox) && queue == old(queue)[1..]
      ensures history.handed == old(history.handed) + [Handed(ext.value, old(queue)[0])]
      ensures if queue != [] then phase.Sending? else phase.Receiving?
    {
      RunSnoc(steps, State(), Deliver);
      SendTurn();
    }

    /** The head of the queue, not wanted any more, ends up behind a reset in the mailbox. */
    method SendGone()
      requires Valid() && phase.Sending? && queue != [] && ext.Some? && ext.value in closed && |mailbox| + 2 <= MAILBOX
      modifies this
      ensures Valid() && ext == old(ext) && closed == old(closed) && queue == old(queue)[1..]
      ensures mailbox == old(mailbox) + [ResetExt, WaveCall(old(queue)[0])] && history.handed == old(history.handed)
      ensures if queue != [] then phase.Sending? else phase.Receiving?
    {
      RunSnoc(steps, State(), Fail);
      SendTurn();
      RunSnoc(steps, State(), PushReset);
      SendTurn();
      RunSnoc(steps, State(), Resubmit);
      SendTurn();
    }

    /**
     * A drain nobody interferes with: an open listener is handed the whole queue in order; if it is gone the whole
     * queue is back in the mailbox in order, a reset before each wave.
     */
    method Drain()
      requires Valid() && phase.Sending? && queue != [] && ext.Some? && |mailbox| + 2 * |queue| <= MAILBOX
      modifies this
      ensures Valid() && queue == [] && phase.Receiving? && ext == old(ext) && closed == old(closed)
      ensures if ext.value in closed then
                mailbox == old(mailbox) + TakenBack(old(queue)) && history.handed == old(history.handed)
              else
                mailbox == old(mailbox) && history.handed == old(history.handed) + AllHanded(ext.value, old(queue))
    {
      while queue != []
        invariant Valid() && ext == old(ext) && closed == old(closed) && ext.Some?
        invariant |queue| <= |old(queue)| && |mailbox| + 2 * |queue| <= MAILBOX
        invariant if queue != [] then phase.Sending? else phase.Receiving?
        invariant if ext.value in closed then
                    mailbox + TakenBack(queue) == old(mailbox) + TakenBack(old(queue))
                    && history.handed == old(history.handed)
                  else
                    && mailbox == old(mailbox)
                    && history.handed + AllHanded(ext.value, queue) ==
                       old(history.handed) + AllHanded(ext.value, old(queue))
        decreases |queue|
      {
        ghost var mail, handed, waves := mailbox, history.handed, queue;
        if ext.value in closed {
          SendGone();
          assert mail + TakenBack(waves) == mailbox + TakenBack(queue);
        } else {
          SendOpen();
          assert handed + AllHanded(ext.value, waves) == history.handed + AllHanded(ext.value, queue);
        }
      }
      assert mailbox + [] == mailbox && history.handed + [] == history.handed;
    }

    /** Any step of the environment or of the task. */
    method Turn(step: Step)
      requires Valid() && Enabled(State(), step)
      modifies this
      ensures Valid() && steps == old(steps) + [step]
      ensures !step.Accept? ==> forall id :: Everywhere(State(), id) == old(Everywhere(State(), id))
    {
      TurnConserved(step);
      match step
      case Accept(call) =>
        RunSnoc(steps, State(), step);
        var _ := TrySend(call);
      case Close(listener) =>
        CloseListener(listener);
      case Receive =>
        HandleCall();
      case _ =>
        SendTurn();
    }

    lemma TurnConserved(step: Step)
      requires Valid() && Enabled(State(), step)
      ensures !step.Accept? ==> forall id :: Everywhere(Next(State(), step), id) == Everywhere(State(), id)
    {
      if !step.Accept? {
        TurnConserves(steps, State(), step);
      }
    }
  }

  /** Every run of the state machine is a run of the task. */
  method Replay(script: seq<Step>) returns (lane: Hyperlane)
    requires Run(EMPTY, script).Some?
    ensures fresh(lane) && lane.Valid() && lane.steps == script && Run(EMPTY, script) == Some(lane.State())
  {
    lane := new Hyperlane();
    for i := 0 to |script|
      invariant fresh(lane) && lane.Valid() && lane.steps == script[..i]
    {
      RunPrefix(script, i + 1);
      assert script[..i + 1][..i] == script[..i];
      lane.Turn(script[i]);
    }
    assert script[..|script|] == script;
  }

  lemma {:induction false} RunPrefix(script: seq<Step>, n: nat)
    requires Run(EMPTY, script).Some? && n <= |script|
    ensures Run(EMPTY, script[..n]).Some?
    decreases |script| - n
  {
    if n < |script| {
      RunPrefix(script, n + 1);
      assert script[..n + 1][..n] == script[..n];
    } else {
      assert script[..n] == script;
    }
  }

  /** A pair of lanes between an interchange and one remote. */
  class Hyperway {
    const remote: Surface
    const outbound: Hyperlane
    const inbound: Hyperlane

    constructor (remote: Surface, agent: Agent)
      ensures this.remote == remote
      ensures fresh(inbound) && fresh(outbound) && inbound != outbound
      ensures outbound.State() == EMPTY
      ensures inbound.State() == Inbound(remote, agent)
    {
      this.remote := remote;
      var into := new Hyperlane();
      PrimingExtends([], FromTransform(remote));
      var from := into.TrySend(TransformCall(FromTransform(remote)));
      PrimingExtends([FromTransform(remote)], AgentTransform(agent));
      assert [] + [FromTransform(remote)] == [FromTransform(remote)];
      var stamped := into.TrySend(TransformCall(AgentTransform(agent)));
      assert [FromTransform(remote)] + [AgentTransform(agent)] == [FromTransform(remote), AgentTransform(agent)];
      outbound := new Hyperlane();
      inbound := into;
    }

    /** A further transform behind those already in the mailbox; on a full mailbox it is silently dropped. */
    method TransformInbound(transform: Transform)
      modifies inbound
      ensures inbound.State() ==
              if old(Enabled(inbound.State(), Accept(TransformCall(transform))))
              then Next(old(inbound.State()), Accept(TransformCall(transform)))
              else old(inbound.State())
    {
      var _ := inbound.TrySend(TransformCall(transform));
    }
  }

  /** Adding to a primed lane that has not started is priming it with one more transform. */
  lemma PrimingExtends(transforms: seq<Transform>, transform: Transform)
    requires |transforms| < MAILBOX
    ensures Enabled(Primed(transforms), Accept(TransformCall(transform)))
    ensures Next(Primed(transforms), Accept(TransformCall(transform))) == Primed(transforms + [transform])
  {
  }
}
