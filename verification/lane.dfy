/** The hyperlane actor: one mailbox, at most one listener, a bounded queue and a growing list of transforms. */
module HyperlaneSpec {
  import opened Wrappers
  import opened Loc
  import opened Transforms

  const MAILBOX: nat := 1024
  const KEEP: nat := 1024

  type ListenerId = nat

  datatype Call =
    | Drain | Ext(listener: ListenerId) | ResetExt
    | WaveCall(wave: Wave) | TransformCall(transform: Transform)

  /** Where the task stands between two of its await points. */
  datatype Phase = Receiving | Sending | Resetting(wave: Wave) | Resubmitting(wave: Wave) | Panicked

  datatype Handed = Handed(listener: ListenerId, wave: Wave)

  /** What has happened so far; no step depends on it. */
  datatype History = History(
    accepted: seq<Wave>, received: seq<Wave>, handed: seq<Handed>,
    trimmed: seq<Wave>, refused: seq<Wave>, lost: seq<Wave>)

  datatype Lane = Lane(
    mailbox: seq<Call>, ext: Option<ListenerId>, queue: seq<Wave>, transforms: seq<Transform>, phase: Phase,
    closed: set<ListenerId>, history: History)

  const EMPTY := Lane([], None, [], [], Receiving, {}, History([], [], [], [], [], []))

  /** `Accept` and `Close` are the environment's; the others are the task's own. */
  datatype Step = Accept(call: Call) | Close(listener: ListenerId) | Receive | Deliver | Fail | PushReset | Resubmit

  predicate Enabled(s: Lane, step: Step) {
    match step
    case Accept(_) => |s.mailbox| < MAILBOX && !s.phase.Panicked?
    case Close(_) => true
    case Receive => s.phase.Receiving? && s.mailbox != []
    case Deliver => s.phase.Sending? && s.queue != [] && s.ext.Some? && s.ext.value !in s.closed
    case Fail => s.phase.Sending? && s.queue != [] && s.ext.Some? && s.ext.value in s.closed
    case PushReset => s.phase.Resetting? && |s.mailbox| < MAILBOX
    case Resubmit => s.phase.Resubmitting?
  }

  /** The part of an over-long queue that is dropped before a push, oldest first. */
  function Overflow(queue: seq<Wave>): nat {
    if |queue| > KEEP then |queue| - KEEP else 0
  }

  /** After a call, or between two sends: the task sends while there is something to send and someone to send it to. */
  function Resting(s: Lane): Lane {
    s.(phase := if s.queue != [] && s.ext.Some? then Sending else Receiving)
  }

  function ReceiveWave(s: Lane, wave: Wave): Lane {
    var n := Overflow(s.queue);
    var trimmed := s.(queue := s.queue[n..], history := s.history.(trimmed := s.history.trimmed + s.queue[..n]));
    match FilterAll(s.transforms, wave)
    case None => trimmed.(phase := Panicked, history := trimmed.history.(lost := s.history.lost + [wave]))
    case Some(w) =>
      Resting(trimmed.(queue := trimmed.queue + [w], history := trimmed.history.(received := s.history.received + [w])))
  }

  function ReceiveCall(s: Lane): Lane
    requires s.mailbox != []
  {
    var rest := s.(mailbox := s.mailbox[1..]);
    match s.mailbox[0]
    case Drain => Resting(rest)
    case Ext(listener) => Resting(rest.(ext := Some(listener)))
    case ResetExt => Resting(rest.(ext := None))
    case TransformCall(transform) => Resting(rest.(transforms := rest.transforms + [transform]))
    case WaveCall(wave) => ReceiveWave(rest, wave)
  }

  function Next(s: Lane, step: Step): Lane
    requires Enabled(s, step)
  {
    match step
    case Accept(call) =>
      s.(mailbox := s.mailbox + [call],
         history := if call.WaveCall? then s.history.(accepted := s.history.accepted + [call.wave]) else s.history)
    case Close(listener) => s.(closed := s.closed + {listener})
    case Receive => ReceiveCall(s)
    case Deliver =>
      Resting(s.(queue := s.queue[1..],
                 history := s.history.(handed := s.history.handed + [Handed(s.ext.value, s.queue[0])])))
    case Fail => s.(phase := Resetting(s.queue[0]), queue := s.queue[1..])
    case PushReset => s.(mailbox := s.mailbox + [ResetExt], phase := Resubmitting(s.phase.wave))
    case Resubmit =>
      Resting(if |s.mailbox| < MAILBOX then s.(mailbox := s.mailbox + [WaveCall(s.phase.wave)])
              else s.(history := s.history.(refused := s.history.refused + [s.phase.wave])))
  }

  /** A run is any sequence of steps that are enabled when they are taken. */
  function Run(s: Lane, steps: seq<Step>): Option<Lane> {
    if steps == [] then Some(s)
    else
      match Run(s, steps[..|steps| - 1])
      case None => None
      case Some(t) => if Enabled(t, steps[|steps| - 1]) then Some(Next(t, steps[|steps| - 1])) else None
  }

  lemma {:induction false} RunConcat(s: Lane, a: seq<Step>, b: seq<Step>)
    ensures Run(s, a + b) == match Run(s, a) case None => None case Some(t) => Run(t, b)
    decreases |b|
  {
    if b == [] {
      assert a + b == a;
    } else {
      RunConcat(s, a, b[..|b| - 1]);
      assert (a + b)[..|a + b| - 1] == a + b[..|b| - 1];
    }
  }

  // ------------------------------------------------------------------ conservation

  function Ids(waves: seq<Wave>): (r: seq<nat>)
    ensures |r| == |waves|
  {
    seq(|waves|, i requires 0 <= i < |waves| => waves[i].id)
  }

  function MailedWaves(mailbox: seq<Call>): seq<Wave> {
    if mailbox == [] then []
    else (if mailbox[0].WaveCall? then [mailbox[0].wave] else []) + MailedWaves(mailbox[1..])
  }

  function HandedWaves(handed: seq<Handed>): (r: seq<Wave>)
    ensures |r| == |handed|
  {
    seq(|handed|, i requires 0 <= i < |handed| => handed[i].wave)
  }

  /** The wave whose failed send is being taken back. */
  function InHand(phase: Phase): seq<Wave> {
    if phase.Resetting? || phase.Resubmitting? then [phase.wave] else []
  }

  lemma {:induction false} MailedConcat(a: seq<Call>, b: seq<Call>)
    ensures MailedWaves(a + b) == MailedWaves(a) + MailedWaves(b)
  {
    if a == [] {
      assert a + b == b;
    } else {
      MailedConcat(a[1..], b);
      assert (a + b)[1..] == a[1..] + b;
    }
  }

  lemma MailedSnoc(mailbox: seq<Call>, call: Call)
    ensures call.WaveCall? ==> MailedWaves(mailbox + [call]) == MailedWaves(mailbox) + [call.wave]
    ensures !call.WaveCall? ==> MailedWaves(mailbox + [call]) == MailedWaves(mailbox)
  {
    MailedConcat(mailbox, [call]);
    assert [call][1..] == [];
    assert MailedWaves([call]) == if call.WaveCall? then [call.wave] else [];
  }

  /** How often a wave id occurs. */
  function Count(waves: seq<Wave>, id: nat): nat {
    if waves == [] then 0 else (if waves[0].id == id then 1 else 0) + Count(waves[1..], id)
  }

  lemma {:induction false} CountConcat(a: seq<Wave>, b: seq<Wave>, id: nat)
    ensures Count(a + b, id) == Count(a, id) + Count(b, id)
  {
    if a == [] {
      assert a + b == b;
    } else {
      CountConcat(a[1..], b, id);
      assert (a + b)[1..] == a[1..] + b;
    }
  }

  lemma CountOne(wave: Wave, id: nat)
    ensures Count([wave], id) == if wave.id == id then 1 else 0
  {
    assert [wave][1..] == [];
  }

  /** Where a wave id is: six places, how often in each. */
  function Places(s: Lane, id: nat): seq<nat> {
    [Count(HandedWaves(s.history.handed), id),
     Count(s.queue, id),
     Count(MailedWaves(s.mailbox), id) + Count(InHand(s.phase), id),
     Count(s.history.trimmed, id),
     Count(s.history.refused, id),
     Count(s.history.lost, id)]
  }

  function Everywhere(s: Lane, id: nat): nat {
    var p := Places(s, id);
    p[0] + p[1] + p[2] + p[3] + p[4] + p[5]
  }

  lemma IdsConcat(a: seq<Wave>, b: seq<Wave>)
    ensures Ids(a + b) == Ids(a) + Ids(b)
  {
  }

  lemma HandedConcat(a: seq<Handed>, h: Handed)
    ensures HandedWaves(a + [h]) == HandedWaves(a) + [h.wave]
  {
  }

  /** Between deliveries the task is never in the sending phase with nothing to send. */
  ghost predicate Sane(s: Lane) {
    && |s.mailbox| <= MAILBOX
    && |s.queue| <= KEEP + 1
    && (s.phase.Sending? ==> s.queue != [] && s.ext.Some?)
  }

  lemma {:induction false} StaysSane(s: Lane, steps: seq<Step>)
    requires Sane(s) && Run(s, steps).Some?
    ensures Sane(Run(s, steps).value)
  {
    if steps != [] {
      StaysSane(s, steps[..|steps| - 1]);
    }
  }

  lemma AcceptConserves(s: Lane, call: Call, id: nat)
    requires Enabled(s, Accept(call)) && Everywhere(s, id) == Count(s.history.accepted, id)
    ensures Everywhere(Next(s, Accept(call)), id) == Count(Next(s, Accept(call)).history.accepted, id)
  {
    MailedSnoc(s.mailbox, call);
    if call.WaveCall? {
      CountConcat(s.history.accepted, [call.wave], id);
      CountConcat(MailedWaves(s.mailbox), [call.wave], id);
    }
  }

  lemma QueueHeadConserves(s: Lane, id: nat)
    requires s.queue != []
    ensures Count(s.queue, id) == Count([s.queue[0]], id) + Count(s.queue[1..], id)
    ensures s.ext.Some? ==>
              Count(HandedWaves(s.history.handed + [Handed(s.ext.value, s.queue[0])]), id) ==
              Count(HandedWaves(s.history.handed), id) + Count([s.queue[0]], id)
  {
    CountOne(s.queue[0], id);
    if s.ext.Some? {
      HandedConcat(s.history.handed, Handed(s.ext.value, s.queue[0]));
      CountConcat(HandedWaves(s.history.handed), [s.queue[0]], id);
    }
  }

  lemma ResubmitConserves(s: Lane, id: nat)
    requires s.phase.Resubmitting?
    ensures Everywhere(Next(s, Resubmit), id) == Everywhere(s, id)
  {
    MailedSnoc(s.mailbox, WaveCall(s.phase.wave));
    CountConcat(MailedWaves(s.mailbox), [s.phase.wave], id);
    CountConcat(s.history.refused, [s.phase.wave], id);
  }

  lemma ReceiveConserves(s: Lane, wave: Wave, id: nat)
    requires s.phase.Receiving?
    ensures Everywhere(ReceiveWave(s, wave), id) == Everywhere(s, id) + Count([wave], id)
  {
    var n := Overflow(s.queue);
    assert s.queue == s.queue[..n] + s.queue[n..];
    CountConcat(s.queue[..n], s.queue[n..], id);
    CountConcat(s.history.trimmed, s.queue[..n], id);
    CountOne(wave, id);
    match FilterAll(s.transforms, wave)
    case None => CountConcat(s.history.lost, [wave], id);
    case Some(w) =>
      CountConcat(s.queue[n..], [w], id);
      CountOne(w, id);
  }

  /** What counts is where the waves are; the listener, the transforms and idle phases do not matter. */
  lemma SamePlaces(s: Lane, t: Lane, id: nat)
    requires s.history == t.history && s.queue == t.queue && InHand(s.phase) == InHand(t.phase)
    requires MailedWaves(s.mailbox) == MailedWaves(t.mailbox)
    ensures Everywhere(s, id) == Everywhere(t, id)
  {
  }

  lemma TakeConserves(s: Lane, id: nat)
    requires Enabled(s, Receive)
    ensures Everywhere(Next(s, Receive), id) == Everywhere(s, id)
  {
    var rest := s.(mailbox := s.mailbox[1..]);
    if s.mailbox[0].WaveCall? {
      TakeWaveConserves(s, s.mailbox[0].wave, id);
      ReceiveConserves(rest, s.mailbox[0].wave, id);
      assert Next(s, Receive) == ReceiveWave(rest, s.mailbox[0].wave);
    } else {
      TakeOther(s);
      SamePlaces(s, ReceiveCall(s), id);
    }
  }

  lemma TakeOther(s: Lane)
    requires Enabled(s, Receive) && !s.mailbox[0].WaveCall?
    ensures var t := ReceiveCall(s);
            && s.history == t.history && s.queue == t.queue && InHand(s.phase) == InHand(t.phase)
            && MailedWaves(s.mailbox) == MailedWaves(t.mailbox)
  {
    assert ReceiveCall(s).mailbox == s.mailbox[1..];
    assert [] + MailedWaves(s.mailbox[1..]) == MailedWaves(s.mailbox[1..]);
  }

  lemma TakeWaveConserves(s: Lane, wave: Wave, id: nat)
    requires s.mailbox != [] && s.mailbox[0] == WaveCall(wave)
    ensures Everywhere(s, id) == Everywhere(s.(mailbox := s.mailbox[1..]), id) + Count([wave], id)
  {
    assert MailedWaves(s.mailbox) == [wave] + MailedWaves(s.mailbox[1..]);
    CountConcat([wave], MailedWaves(s.mailbox[1..]), id);
  }

  lemma DeliverConserves(s: Lane, id: nat)
    requires Enabled(s, Deliver)
    ensures Everywhere(Next(s, Deliver), id) == Everywhere(s, id)
  {
    QueueHeadConserves(s, id);
  }

  lemma FailConserves(s: Lane, id: nat)
    requires Enabled(s, Fail)
    ensures Everywhere(Next(s, Fail), id) == Everywhere(s, id)
  {
    QueueHeadConserves(s, id);
  }

  lemma PushResetConserves(s: Lane, id: nat)
    requires Enabled(s, PushReset)
    ensures Everywhere(Next(s, PushReset), id) == Everywhere(s, id)
  {
    MailedSnoc(s.mailbox, ResetExt);
    assert MailedWaves(s.mailbox) + [] == MailedWaves(s.mailbox);
    SamePlaces(s, Next(s, PushReset), id);
  }

  lemma OnlyAcceptAccepts(s: Lane, step: Step)
    requires Enabled(s, step) && !step.Accept?
    ensures Next(s, step).history.accepted == s.history.accepted
  {
  }

  lemma StepConserves(s: Lane, step: Step, id: nat)
    requires Enabled(s, step) && Everywhere(s, id) == Count(s.history.accepted, id)
    ensures Everywhere(Next(s, step), id) == Count(Next(s, step).history.accepted, id)
  {
    if step.Accept? {
      AcceptConserves(s, step.call, id);
    } else {
      OnlyAcceptAccepts(s, step);
      match step
      case Close(_) => SamePlaces(s, Next(s, step), id);
      case Receive => TakeConserves(s, id);
      case Deliver => DeliverConserves(s, id);
      case Fail => FailConserves(s, id);
      case PushReset => PushResetConserves(s, id);
      case Resubmit => ResubmitConserves(s, id);
    }
  }

  /**
   * No wave is ever duplicated or forgotten: on every run an id occurs among the accepted waves as often as it occurs
   * among those handed out, queued, in the mailbox (or in hand on their way back into it), trimmed, refused by a full
   * mailbox, or lost to a panicking transform.
   */
  lemma {:induction false} WavesAreConserved(steps: seq<Step>, id: nat)
    requires Run(EMPTY, steps).Some?
    ensures var s := Run(EMPTY, steps).value; Everywhere(s, id) == Count(s.history.accepted, id)
  {
    if steps != [] {
      WavesAreConserved(steps[..|steps| - 1], id);
      StepConserves(Run(EMPTY, steps[..|steps| - 1]).value, steps[|steps| - 1], id);
    }
  }

  /** A wave accepted once is in exactly one place, once. */
  lemma EachWaveInOnePlace(steps: seq<Step>, id: nat) returns (i: nat)
    requires Run(EMPTY, steps).Some?
    requires Count(Run(EMPTY, steps).value.history.accepted, id) == 1
    ensures i < 6 && Places(Run(EMPTY, steps).value, id) == seq(6, j => if j == i then 1 else 0)
  {
    WavesAreConserved(steps, id);
    var p := Places(Run(EMPTY, steps).value, id);
    i := if p[0] == 1 then 0 else if p[1] == 1 then 1 else if p[2] == 1 then 2
         else if p[3] == 1 then 3 else if p[4] == 1 then 4 else 5;
  }

  // ------------------------------------------------------------------ bounds and order

  /** Neither the mailbox nor the queue ever outgrows its bound. */
  lemma LaneIsBounded(steps: seq<Step>)
    requires Run(EMPTY, steps).Some?
    ensures var s := Run(EMPTY, steps).value; |s.queue| <= 1025 && |s.mailbox| <= 1024
  {
    StaysSane(EMPTY, steps);
  }

  predicate NeverFails(steps: seq<Step>) {
    forall i | 0 <= i < |steps| :: !steps[i].Fail?
  }

  predicate NobodyListens(steps: seq<Step>) {
    forall i | 0 <= i < |steps| :: steps[i].Accept? ==> !steps[i].call.Ext?
  }

  /** The last `n` waves, or all of them if there are fewer. */
  function LastOf(waves: seq<Wave>, n: nat): seq<Wave> {
    if |waves| <= n then waves else waves[|waves| - n..]
  }

  /** `whole` is made of the elements of `a` and of `b`, each in its own order. */
  ghost predicate Shuffle(whole: seq<Wave>, a: seq<Wave>, b: seq<Wave>)
    decreases |whole|
  {
    if whole == [] then a == [] && b == []
    else
      var init, last := whole[..|whole| - 1], whole[|whole| - 1];
      || (a != [] && a[|a| - 1] == last && Shuffle(init, a[..|a| - 1], b))
      || (b != [] && b[|b| - 1] == last && Shuffle(init, a, b[..|b| - 1]))
  }

  lemma ShuffleLeft(whole: seq<Wave>, a: seq<Wave>, b: seq<Wave>, w: Wave)
    requires Shuffle(whole, a, b)
    ensures Shuffle(whole + [w], a + [w], b)
  {
    assert (whole + [w])[..|whole|] == whole && (a + [w])[..|a|] == a;
  }

  lemma {:induction false} ShuffleRight(whole: seq<Wave>, a: seq<Wave>, b: seq<Wave>, more: seq<Wave>)
    requires Shuffle(whole, a, b)
    ensures Shuffle(whole + more, a, b + more)
    decreases |more|
  {
    if more == [] {
      assert whole + more == whole && b + more == b;
    } else {
      var init, last := more[..|more| - 1], more[|more| - 1];
      ShuffleRight(whole, a, b, init);
      assert (whole + more)[..|whole + more| - 1] == whole + init;
      assert (b + more)[..|b + more| - 1] == b + init;
    }
  }

  /** The queue is the end of what was received; all before it was handed out or trimmed, in the order received. */
  ghost predicate QueueInOrder(s: Lane) {
    var h, n := s.history, |s.history.received| - |s.queue|;
    && n >= 0
    && s.queue == h.received[n..]
    && Shuffle(h.received[..n], HandedWaves(h.handed), h.trimmed)
  }

  /** What was received, followed by what is still in the mailbox, is what was accepted, in the order accepted. */
  ghost predicate MailInOrder(s: Lane) {
    && !s.phase.Resetting? && !s.phase.Resubmitting?
    && Ids(s.history.received) + Ids(s.history.lost) + Ids(MailedWaves(s.mailbox)) == Ids(s.history.accepted)
    && (s.history.lost != [] ==> s.phase.Panicked?)
  }

  lemma DeliverKeepsQueueOrder(s: Lane)
    requires QueueInOrder(s) && Enabled(s, Deliver)
    ensures QueueInOrder(Next(s, Deliver))
  {
    var h, n := s.history, |s.history.received| - |s.queue|;
    HandedConcat(h.handed, Handed(s.ext.value, s.queue[0]));
    ShuffleLeft(h.received[..n], HandedWaves(h.handed), h.trimmed, s.queue[0]);
    assert h.received[..n + 1] == h.received[..n] + [s.queue[0]];
    assert s.queue[1..] == h.received[n + 1..];
  }

  /** Dropping the oldest waves moves them from the queue to those trimmed. */
  lemma TrimKeepsQueueOrder(s: Lane)
    requires QueueInOrder(s)
    ensures var n := Overflow(s.queue);
            QueueInOrder(s.(queue := s.queue[n..], history := s.history.(trimmed := s.history.trimmed + s.queue[..n])))
  {
    var h, n, k := s.history, Overflow(s.queue), |s.history.received| - |s.queue|;
    ShuffleRight(h.received[..k], HandedWaves(h.handed), h.trimmed, s.queue[..n]);
    assert h.received[..k + n] == h.received[..k] + s.queue[..n];
    assert s.queue[n..] == h.received[k + n..];
  }

  lemma PushKeepsQueueOrder(s: Lane, w: Wave)
    requires QueueInOrder(s)
    ensures QueueInOrder(s.(queue := s.queue + [w], history := s.history.(received := s.history.received + [w])))
  {
    var received, k := s.history.received, |s.history.received| - |s.queue|;
    assert (received + [w])[..k] == received[..k];
    assert (received + [w])[k..] == received[k..] + [w];
  }

  lemma ReceiveKeepsQueueOrder(s: Lane, wave: Wave)
    requires QueueInOrder(s)
    ensures QueueInOrder(ReceiveWave(s, wave))
  {
    var n := Overflow(s.queue);
    var trimmed := s.(queue := s.queue[n..], history := s.history.(trimmed := s.history.trimmed + s.queue[..n]));
    TrimKeepsQueueOrder(s);
    match FilterAll(s.transforms, wave)
    case None =>
    case Some(w) => PushKeepsQueueOrder(trimmed, w);
  }

  lemma StepKeepsQueueOrder(s: Lane, step: Step)
    requires QueueInOrder(s) && Enabled(s, step) && !step.Fail?
    ensures QueueInOrder(Next(s, step))
  {
    match step
    case Receive =>
      if s.mailbox[0].WaveCall? {
        ReceiveKeepsQueueOrder(s.(mailbox := s.mailbox[1..]), s.mailbox[0].wave);
      }
    case Deliver => DeliverKeepsQueueOrder(s);
    case _ =>
  }

  lemma ReceiveKeepsMailOrder(s: Lane, wave: Wave)
    requires s.phase.Receiving?
    requires Ids(s.history.received) + [wave.id] + Ids(MailedWaves(s.mailbox)) == Ids(s.history.accepted)
    requires s.history.lost == []
    ensures MailInOrder(ReceiveWave(s, wave))
  {
    var h, mail := s.history, Ids(MailedWaves(s.mailbox));
    match FilterAll(s.transforms, wave)
    case None =>
      assert Ids([wave]) == [wave.id];
    case Some(w) =>
      IdsConcat(h.received, [w]);
      assert Ids([w]) == [wave.id] && Ids(h.lost) == [];
      assert Ids(h.received) + [wave.id] + [] + mail == Ids(h.received) + [wave.id] + mail;
  }

  lemma StepKeepsMailOrder(s: Lane, step: Step)
    requires MailInOrder(s) && Enabled(s, step) && !step.Fail?
    ensures MailInOrder(Next(s, step))
  {
    var h, mail := s.history, MailedWaves(s.mailbox);
    match step
    case Accept(call) =>
      MailedSnoc(s.mailbox, call);
      if call.WaveCall? {
        IdsConcat(h.accepted, [call.wave]);
        IdsConcat(mail, [call.wave]);
      }
    case Receive =>
      if s.mailbox[0].WaveCall? {
        var wave := s.mailbox[0].wave;
        assert mail == [wave] + MailedWaves(s.mailbox[1..]);
        IdsConcat([wave], MailedWaves(s.mailbox[1..]));
        assert Ids([wave]) == [wave.id] && Ids(h.lost) == [];
        ReceiveKeepsMailOrder(s.(mailbox := s.mailbox[1..]), wave);
      }
    case _ =>
  }

  /** First in, first out: on runs without a failed send only trimming interrupts the order. */
  lemma {:induction false} FailureFreeRunsKeepOrder(steps: seq<Step>)
    requires NeverFails(steps) && Run(EMPTY, steps).Some?
    ensures QueueInOrder(Run(EMPTY, steps).value) && MailInOrder(Run(EMPTY, steps).value)
  {
    if steps != [] {
      var s := Run(EMPTY, steps[..|steps| - 1]).value;
      FailureFreeRunsKeepOrder(steps[..|steps| - 1]);
      StepKeepsQueueOrder(s, steps[|steps| - 1]);
      StepKeepsMailOrder(s, steps[|steps| - 1]);
    }
  }

  ghost predicate Unheard(s: Lane) {
    && s.ext.None? && (s.phase.Receiving? || s.phase.Panicked?) && s.history.handed == []
    && (forall c | c in s.mailbox :: !c.Ext?)
    && (s.phase.Receiving? ==> s.queue == LastOf(s.history.received, 1025))
  }

  lemma StepKeepsUnheard(s: Lane, step: Step)
    requires Unheard(s) && Enabled(s, step)
    requires step.Accept? ==> !step.call.Ext?
    ensures Unheard(Next(s, step)) && !step.Fail?
  {
    if step.Receive? {
      assert s.mailbox[0] in s.mailbox;
      assert forall c | c in s.mailbox[1..] :: c in s.mailbox;
    }
  }

  /**
   * Before any listener attaches, the queue is exactly the last 1025 waves received, and those received are the first
   * ones accepted.
   */
  lemma {:induction false} QueueBeforeListener(steps: seq<Step>)
    requires NobodyListens(steps) && Run(EMPTY, steps).Some?
    ensures Unheard(Run(EMPTY, steps).value) && MailInOrder(Run(EMPTY, steps).value)
  {
    if steps != [] {
      var s := Run(EMPTY, steps[..|steps| - 1]).value;
      QueueBeforeListener(steps[..|steps| - 1]);
      StepKeepsUnheard(s, steps[|steps| - 1]);
      StepKeepsMailOrder(s, steps[|steps| - 1]);
    }
  }

  // ------------------------------------------------------------------ what a listener is handed

  /** A fresh lane whose first mail is a list of transforms. */
  function Primed(transforms: seq<Transform>): Lane {
    EMPTY.(mailbox := seq(|transforms|, i requires 0 <= i < |transforms| => TransformCall(transforms[i])))
  }

  /** `w` is what an accepted wave becomes under the first `n` transforms, for some `n` from `least` on. */
  ghost predicate Derives(s: Lane, w: Wave, least: nat) {
    exists i, n :: && 0 <= i < |s.history.accepted| && least <= n <= |s.transforms|
                   && FilterAll(s.transforms[..n], s.history.accepted[i]) == Some(w)
  }

  /** The priming transforms are ahead of every wave. */
  ghost predicate PrimedFirst(s: Lane, primers: seq<Transform>) {
    var m := |s.transforms|;
    if m < |primers| then
      && s.transforms == primers[..m]
      && |s.mailbox| >= |primers| - m
      && (forall i | 0 <= i < |primers| - m :: s.mailbox[i] == TransformCall(primers[m + i]))
      && s.queue == [] && s.history.handed == [] && s.phase.Receiving?
    else primers <= s.transforms
  }

  ghost predicate Traced(s: Lane, primers: seq<Transform>) {
    && PrimedFirst(s, primers)
    && (forall i | 0 <= i < |s.mailbox| && s.mailbox[i].WaveCall? :: Derives(s, s.mailbox[i].wave, 0))
    && (s.phase.Resetting? || s.phase.Resubmitting? ==> Derives(s, s.phase.wave, 0))
    && (forall i | 0 <= i < |s.queue| :: Derives(s, s.queue[i], |primers|))
    && (forall i | 0 <= i < |s.history.handed| :: Derives(s, s.history.handed[i].wave, |primers|))
  }

  lemma DerivesStays(s: Lane, t: Lane, w: Wave, least: nat, less: nat)
    requires Derives(s, w, least) && less <= least
    requires s.transforms <= t.transforms && s.history.accepted <= t.history.accepted
    ensures Derives(t, w, less)
  {
    var i, n :| && 0 <= i < |s.history.accepted| && least <= n <= |s.transforms|
                && FilterAll(s.transforms[..n], s.history.accepted[i]) == Some(w);
    assert t.transforms[..n] == s.transforms[..n] && t.history.accepted[i] == s.history.accepted[i];
  }

  /** Through the whole list once more: the retry leaves no trace. */
  lemma DerivesAnew(s: Lane, wave: Wave, w: Wave)
    requires Derives(s, wave, 0) && FilterAll(s.transforms, wave) == Some(w)
    ensures Derives(s, w, |s.transforms|)
  {
    var i, n :| && 0 <= i < |s.history.accepted| && 0 <= n <= |s.transforms|
                && FilterAll(s.transforms[..n], s.history.accepted[i]) == Some(wave);
    RetryIsHarmless(s.transforms[..n], s.transforms, s.history.accepted[i]);
    assert s.transforms[..|s.transforms|] == s.transforms;
  }

  lemma AcceptTraces(s: Lane, call: Call, primers: seq<Transform>)
    requires Traced(s, primers) && Enabled(s, Accept(call))
    ensures Traced(Next(s, Accept(call)), primers)
  {
    var t := Next(s, Accept(call));
    forall w, least | Derives(s, w, least)
      ensures Derives(t, w, least)
    {
      DerivesStays(s, t, w, least, least);
    }
    if call.WaveCall? {
      var n := |s.history.accepted|;
      assert t.history.accepted[n] == call.wave;
      assert FilterAll(t.transforms[..0], t.history.accepted[n]) == Some(call.wave);
    }
  }

  /** Taking the first call out of the mailbox, before it is acted on. */
  lemma MailTraced(s: Lane, t: Lane, primers: seq<Transform>)
    requires Traced(s, primers) && s.mailbox != [] && t.mailbox == s.mailbox[1..]
    requires s.transforms <= t.transforms && s.history.accepted == t.history.accepted
    ensures forall i | 0 <= i < |t.mailbox| && t.mailbox[i].WaveCall? :: Derives(t, t.mailbox[i].wave, 0)
    ensures forall i | 0 <= i < |s.queue| :: Derives(t, s.queue[i], |primers|)
    ensures forall i | 0 <= i < |s.history.handed| :: Derives(t, s.history.handed[i].wave, |primers|)
  {
    forall w, least | Derives(s, w, least)
      ensures Derives(t, w, least)
    {
      DerivesStays(s, t, w, least, least);
    }
    assert forall i | 0 <= i < |t.mailbox| :: t.mailbox[i] == s.mailbox[i + 1];
  }

  lemma ReceiveTraces(s: Lane, primers: seq<Transform>)
    requires Traced(s, primers) && Enabled(s, Receive)
    ensures Traced(Next(s, Receive), primers)
  {
    var t := Next(s, Receive);
    MailTraced(s, t, primers);
    if s.mailbox[0].WaveCall? {
      assert |primers| <= |s.transforms|;
      if FilterAll(s.transforms, s.mailbox[0].wave).Some? {
        var w := FilterAll(s.transforms, s.mailbox[0].wave).value;
        DerivesAnew(s, s.mailbox[0].wave, w);
        DerivesStays(s, t, w, |s.transforms|, |primers|);
        QueueAfter(s, w);
      }
    } else {
      assert t.queue == s.queue && t.history == s.history;
      PrimedOn(s, primers);
    }
  }

  lemma QueueAfter(s: Lane, w: Wave)
    requires s.mailbox != [] && s.mailbox[0].WaveCall? && FilterAll(s.transforms, s.mailbox[0].wave) == Some(w)
    ensures var t := ReceiveCall(s);
            forall i | 0 <= i < |t.queue| ::
              t.queue[i] == if i < |t.queue| - 1 then s.queue[i + Overflow(s.queue)] else w
  {
  }

  lemma PrimedOn(s: Lane, primers: seq<Transform>)
    requires PrimedFirst(s, primers) && Enabled(s, Receive) && !s.mailbox[0].WaveCall?
    ensures PrimedFirst(Next(s, Receive), primers)
  {
    var t := Next(s, Receive);
    var m := |s.transforms|;
    if m < |primers| {
      assert s.mailbox[0] == TransformCall(primers[m]);
      assert t.transforms == primers[..m + 1];
      assert m + 1 == |primers| ==> primers[..m + 1] == primers;
      assert forall i | 0 <= i < |t.mailbox| :: t.mailbox[i] == s.mailbox[i + 1];
    }
  }

  lemma StepTraces(s: Lane, step: Step, primers: seq<Transform>)
    requires Traced(s, primers) && Enabled(s, step)
    ensures Traced(Next(s, step), primers)
  {
    var t := Next(s, step);
    match step
    case Accept(call) => AcceptTraces(s, call, primers);
    case Receive => ReceiveTraces(s, primers);
    case _ =>
      forall w, least, less: nat | Derives(s, w, least) && less <= least
        ensures Derives(t, w, less)
      {
        DerivesStays(s, t, w, least, less);
      }
  }

  /**
   * However often a wave was taken back and sent again, what a listener is handed is an accepted wave put once through
   * a list of transforms that starts with the priming ones.
   */
  lemma {:induction false} HandedIsFilteredOnce(primers: seq<Transform>, steps: seq<Step>)
    requires Run(Primed(primers), steps).Some?
    ensures Traced(Run(Primed(primers), steps).value, primers)
  {
    if steps != [] {
      HandedIsFilteredOnce(primers, steps[..|steps| - 1]);
      StepTraces(Run(Primed(primers), steps[..|steps| - 1]).value, steps[|steps| - 1], primers);
    }
  }

  predicate OnlyReaddresses(steps: seq<Step>) {
    forall i | 0 <= i < |steps| && steps[i].Accept? && steps[i].call.TransformCall? ::
      Readdresses(steps[i].call.transform)
  }

  /** The inbound lane of a hyperway: sender and agent are stamped first. */
  function Inbound(remote: Surface, agent: Agent): Lane {
    Primed([FromTransform(remote), AgentTransform(agent)])
  }

  ghost predicate LaterReaddress(s: Lane, k: nat) {
    && (forall i | k <= i < |s.transforms| :: Readdresses(s.transforms[i]))
    && (forall i | (if k > |s.transforms| then k - |s.transforms| else 0) <= i < |s.mailbox|
       && s.mailbox[i].TransformCall? ::
          Readdresses(s.mailbox[i].transform))
  }

  lemma {:induction false} LaterStaysReaddress(primers: seq<Transform>, steps: seq<Step>)
    requires Run(Primed(primers), steps).Some? && OnlyReaddresses(steps)
    ensures LaterReaddress(Run(Primed(primers), steps).value, |primers|)
  {
    if steps != [] {
      var init, last := steps[..|steps| - 1], steps[|steps| - 1];
      LaterStaysReaddress(primers, init);
      HandedIsFilteredOnce(primers, init);
      var s := Run(Primed(primers), init).value;
      var t := Next(s, last);
      if last.Receive? {
        assert forall i | 0 <= i < |t.mailbox| :: t.mailbox[i] == s.mailbox[i + 1];
      }
    }
  }

  /** Every wave an inbound lane ever hands out carries the hyperway's sender and agent. */
  lemma InboundStampsAll(remote: Surface, agent: Agent, steps: seq<Step>, i: nat)
    requires Run(Inbound(remote, agent), steps).Some? && OnlyReaddresses(steps)
    requires i < |Run(Inbound(remote, agent), steps).value.history.handed|
    ensures var w := Run(Inbound(remote, agent), steps).value.history.handed[i].wave;
            w.from == remote && w.agent == agent
  {
    var stamps := [FromTransform(remote), AgentTransform(agent)];
    HandedIsFilteredOnce(stamps, steps);
    LaterStaysReaddress(stamps, steps);
    var s := Run(Inbound(remote, agent), steps).value;
    var w := s.history.handed[i].wave;
    var j, n :| && 0 <= j < |s.history.accepted| && 2 <= n <= |s.transforms|
                && FilterAll(s.transforms[..n], s.history.accepted[j]) == Some(w);
    assert forall k | 0 <= k < 2 :: s.transforms[k] == stamps[k];
    StampedByList(s.transforms[..n], remote, agent, s.history.accepted[j]);
  }
}
