/** The client's end of a hyperway: a runner that connects, a relay that expects a greeting, and a status task. */
module ClientSpec {
  import opened Wrappers
  import opened Loc
  import opened Transforms

  const STATUSES: nat := 128
  const WAVES: nat := 1024

  datatype Status = Pending | Connecting | Ready | Panic | Fatal | Closed {
    predicate IsFinal() {
      Fatal? || Closed?
    }
  }

  datatype Greet = Greet(surface: Surface, agent: Agent)

  datatype Body = Greeting(greet: Greet) | OtherBody

  datatype Incoming = Directed(id: nat) | Reflected(id: nat, code: nat, body: Body) {
    predicate IsSuccess() {
      Reflected? && 200 <= code < 300
    }

    predicate IsGreeting() {
      IsSuccess() && body.Greeting?
    }

    /** What a first wave that is no greeting does to the status. */
    function Complaint(): Status {
      if Reflected? && !IsSuccess() && code !in {400, 401, 403, 301} then Panic else Fatal
    }
  }

  datatype RunnerPhase = Starting | Announcing | Creating | Readying | Running | Failed | Done

  datatype RelayPhase = AwaitGreeting | Complaining(status: Status) | Passing | Ended

  /** What has happened so far; no step depends on it. */
  datatype History = History(read: seq<Incoming>, greetings: seq<Greet>, dropped: seq<Incoming>, published: seq<Status>)

  datatype Client = Client(
    runner: RunnerPhase, relay: RelayPhase, statusOpen: bool, statuses: seq<Status>, status: Status,
    toClient: seq<Incoming>, greet: Option<Greet>, exchanger: bool,
    listener: seq<Incoming>, exchanged: seq<Incoming>, history: History)

  function Fresh(exchanger: bool): Client {
    Client(Starting, AwaitGreeting, true, [], Pending, [], None, exchanger, [], [], History([], [], [], []))
  }

  /** The runner's, the relay's and the status task's steps; flags stand for what the outside answers. */
  datatype Step =
    | Begin | Announce | Create(made: bool) | SayReady | GiveUp
    | FromRemote(wave: Incoming) | RemoteGone | ClientGone | ResetAsked | CloseAsked | ToRemote(sent: bool)
    | ReadFirst | Complain | Pass(taken: bool) | RelayOver
    | Publish

  predicate CanSend(s: Client) {
    s.statusOpen ==> |s.statuses| < STATUSES
  }

  function Send(s: Client, status: Status): Client {
    if s.statusOpen then s.(statuses := s.statuses + [status]) else s
  }

  predicate Enabled(s: Client, step: Step) {
    match step
    case Begin => s.runner.Starting? && CanSend(s)
    case Announce => s.runner.Announcing? && CanSend(s)
    case Create(_) => s.runner.Creating?
    case SayReady => s.runner.Readying? && CanSend(s)
    case GiveUp => s.runner.Failed? && CanSend(s)
    case FromRemote(_) => s.runner.Running? && (|s.toClient| < WAVES || s.relay.Ended?)
    case CloseAsked => s.runner.Running? && CanSend(s)
    case RemoteGone => s.runner.Running?
    case ClientGone => s.runner.Running?
    case ResetAsked => s.runner.Running?
    case ToRemote(_) => s.runner.Running?
    case ReadFirst => s.relay.AwaitGreeting? && s.toClient != []
    case Complain => s.relay.Complaining? && CanSend(s)
    case Pass(_) => s.relay.Passing? && s.toClient != []
    case RelayOver => (s.relay.AwaitGreeting? || s.relay.Passing?) && s.runner.Done? && s.toClient == []
    case Publish => s.statusOpen && s.statuses != []
  }

  function ReadGreeting(s: Client): Client
    requires s.toClient != []
  {
    var wave := s.toClient[0];
    var t := s.(toClient := s.toClient[1..], history := s.history.(read := s.history.read + [wave]));
    if wave.IsGreeting() then
      t.(greet := Some(wave.body.greet), relay := Passing,
         history := t.history.(greetings := t.history.greetings + [wave.body.greet]))
    else t.(relay := Complaining(wave.Complaint()))
  }

  /**
   * Reflected waves go to the exchanger if there is one, everything else to the listeners; a refusal ends the relay.
   */
  function PassOn(s: Client, taken: bool): Client
    requires s.toClient != []
  {
    var wave := s.toClient[0];
    var t := s.(toClient := s.toClient[1..], history := s.history.(read := s.history.read + [wave]));
    if !taken then t.(relay := Ended, toClient := [], history := t.history.(dropped := t.history.dropped + [wave]))
    else if s.exchanger && wave.Reflected? then t.(exchanged := t.exchanged + [wave])
    else t.(listener := t.listener + [wave])
  }

  function PublishNext(s: Client): Client
    requires s.statuses != []
  {
    var status := s.statuses[0];
    var t := s.(status := status, statuses := s.statuses[1..],
                history := s.history.(published := s.history.published + [status]));
    if status.IsFinal() then t.(statusOpen := false, statuses := []) else t
  }

  function Next(s: Client, step: Step): Client
    requires Enabled(s, step)
  {
    match step
    case Begin => Send(s, Pending).(runner := Announcing)
    case Announce => Send(s, Connecting).(runner := if s.statusOpen then Creating else Failed)
    case Create(made) => if made then s.(runner := Readying) else s
    case SayReady => Send(s, Ready).(runner := if s.statusOpen then Running else Failed)
    case GiveUp => Send(s, Fatal).(runner := Done)
    case FromRemote(wave) => if s.relay.Ended? then s else s.(toClient := s.toClient + [wave])
    case CloseAsked => Send(s, Closed).(runner := Announcing)
    case RemoteGone => s.(runner := Announcing)
    case ClientGone => s.(runner := Announcing)
    case ResetAsked => s.(runner := Announcing)
    case ToRemote(sent) => if sent then s else s.(runner := Announcing)
    case ReadFirst => ReadGreeting(s)
    case Complain => Send(s, s.relay.status).(relay := Ended, toClient := [])
    case Pass(taken) => PassOn(s, taken)
    case RelayOver => s.(relay := Ended)
    case Publish => PublishNext(s)
  }

  function Run(s: Client, steps: seq<Step>): Option<Client> {
    if steps == [] then Some(s)
    else
      match Run(s, steps[..|steps| - 1])
      case None => None
      case Some(t) => if Enabled(t, steps[|steps| - 1]) then Some(Next(t, steps[|steps| - 1])) else None
  }

  // ------------------------------------------------------------------ greeting first

  function OnlyDirected(waves: seq<Incoming>): seq<Incoming> {
    if waves == [] then []
    else
      var last := waves[|waves| - 1];
      OnlyDirected(waves[..|waves| - 1]) + if last.Directed? then [last] else []
  }

  function OnlyReflected(waves: seq<Incoming>): seq<Incoming> {
    if waves == [] then []
    else
      var last := waves[|waves| - 1];
      OnlyReflected(waves[..|waves| - 1]) + if last.Reflected? then [last] else []
  }

  /** The waves read after the first, without the one that ended the relay. */
  function AfterGreeting(s: Client): seq<Incoming>
    requires 1 + |s.history.dropped| <= |s.history.read|
  {
    s.history.read[1..|s.history.read| - |s.history.dropped|]
  }

  /** Nothing, a refused first wave, or a greeting and then every wave in its place. */
  ghost predicate GreetingFirst(s: Client) {
    var read := s.history.read;
    && |s.history.dropped| <= 1
    && (s.relay.AwaitGreeting? ==> read == [])
    && (s.relay.Complaining? ==> |read| == 1 && !read[0].IsGreeting() && s.relay.status == read[0].Complaint())
    && (s.relay.Passing? ==> s.greet.Some? && s.history.dropped == [])
    && match s.greet
       case None =>
         && (read == [] || (|read| == 1 && !read[0].IsGreeting()))
         && s.history.greetings == [] && s.history.dropped == s.listener == s.exchanged == []
       case Some(greet) =>
         && 1 + |s.history.dropped| <= |read|
         && read[0].IsGreeting() && read[0].body.greet == greet && s.history.greetings == [greet]
         && (if s.exchanger then
               s.listener == OnlyDirected(AfterGreeting(s)) && s.exchanged == OnlyReflected(AfterGreeting(s))
             else s.listener == AfterGreeting(s) && s.exchanged == [])
  }

  lemma SortedSnoc(waves: seq<Incoming>, wave: Incoming)
    ensures OnlyDirected(waves + [wave]) == OnlyDirected(waves) + if wave.Directed? then [wave] else []
    ensures OnlyReflected(waves + [wave]) == OnlyReflected(waves) + if wave.Reflected? then [wave] else []
  {
    assert (waves + [wave])[..|waves|] == waves;
  }

  lemma TailSnoc(read: seq<Incoming>, wave: Incoming)
    requires read != []
    ensures (read + [wave])[0] == read[0]
    ensures (read + [wave])[1..|read| + 1] == read[1..] + [wave]
    ensures (read + [wave])[1..|read|] == read[1..]
  {
  }

  /** A wave that is taken comes after those passed on before; one that is refused is set apart. */
  lemma PassExtends(s: Client, taken: bool)
    requires s.greet.Some? && s.history.dropped == [] && s.history.read != [] && Enabled(s, Pass(taken))
    ensures var t := Next(s, Pass(taken));
            && t.greet == s.greet && t.history.greetings == s.history.greetings
            && 1 + |t.history.dropped| <= |t.history.read| && t.history.read[0] == s.history.read[0]
            && AfterGreeting(t) == AfterGreeting(s) + if taken then [s.toClient[0]] else []
  {
    var t, read, wave := Next(s, Pass(taken)), s.history.read, s.toClient[0];
    TailSnoc(read, wave);
    assert t.history.read == read + [wave] && t.history.dropped == if taken then [] else [wave];
    assert AfterGreeting(s) == read[1..] && |t.history.read| == |read| + 1;
  }

  lemma PassKeepsPlaces(s: Client, taken: bool)
    requires GreetingFirst(s) && Enabled(s, Pass(taken))
    ensures GreetingFirst(Next(s, Pass(taken)))
  {
    PassExtends(s, taken);
    if taken {
      SortedSnoc(AfterGreeting(s), s.toClient[0]);
    } else {
      assert AfterGreeting(s) + [] == AfterGreeting(s);
    }
  }

  lemma ReadFirstGreets(s: Client)
    requires GreetingFirst(s) && Enabled(s, ReadFirst)
    ensures GreetingFirst(Next(s, ReadFirst))
  {
    var t := Next(s, ReadFirst);
    assert t.history.read == [s.toClient[0]];
    assert t.greet.Some? ==> AfterGreeting(t) == [];
  }

  /** What was read, and what became of it. */
  function Reading(s: Client):
    (seq<Incoming>, seq<Greet>, seq<Incoming>, Option<Greet>, seq<Incoming>, seq<Incoming>, bool)
  {
    (s.history.read, s.history.greetings, s.history.dropped, s.greet, s.listener, s.exchanged, s.exchanger)
  }

  lemma OtherStepsDoNotRead(s: Client, step: Step)
    requires Enabled(s, step) && !step.ReadFirst? && !step.Pass?
    ensures Reading(Next(s, step)) == Reading(s)
    ensures Next(s, step).relay == s.relay || Next(s, step).relay.Ended?
  {
  }

  lemma UnreadKeepsGreetingFirst(s: Client, t: Client)
    requires GreetingFirst(s) && Reading(t) == Reading(s) && (t.relay == s.relay || t.relay.Ended?)
    ensures GreetingFirst(t)
  {
  }

  lemma StepKeepsGreetingFirst(s: Client, step: Step)
    requires GreetingFirst(s) && Enabled(s, step)
    ensures GreetingFirst(Next(s, step))
  {
    if step.Pass? {
      PassKeepsPlaces(s, step.taken);
    } else if step.ReadFirst? {
      ReadFirstGreets(s);
    } else {
      OtherStepsDoNotRead(s, step);
      UnreadKeepsGreetingFirst(s, Next(s, step));
    }
  }

  lemma {:induction false} RunsGreetFirst(exchanger: bool, steps: seq<Step>)
    requires Run(Fresh(exchanger), steps).Some?
    ensures GreetingFirst(Run(Fresh(exchanger), steps).value)
  {
    if steps != [] {
      RunsGreetFirst(exchanger, steps[..|steps| - 1]);
      StepKeepsGreetingFirst(Run(Fresh(exchanger), steps[..|steps| - 1]).value, steps[|steps| - 1]);
    }
  }

  lemma StepKeepsExchanger(s: Client, step: Step)
    requires Enabled(s, step)
    ensures Next(s, step).exchanger == s.exchanger
  {
  }

  lemma {:induction false} ExchangerStays(s: Client, steps: seq<Step>)
    requires Run(s, steps).Some?
    ensures Run(s, steps).value.exchanger == s.exchanger
  {
    if steps != [] {
      ExchangerStays(s, steps[..|steps| - 1]);
      StepKeepsExchanger(Run(s, steps[..|steps| - 1]).value, steps[|steps| - 1]);
    }
  }

  /**
   * Over every interleaving: no wave reaches a listener or the exchanger before a greeting is published, at most one
   * is, and it is the one in the very first wave that was read.
   */
  lemma NothingBeforeGreeting(exchanger: bool, steps: seq<Step>)
    requires Run(Fresh(exchanger), steps).Some?
    ensures var s := Run(Fresh(exchanger), steps).value;
            && (s.listener != [] || s.exchanged != [] ==> s.greet.Some?)
            && |s.history.greetings| <= 1
            && (s.greet.Some? <==> s.history.read != [] && s.history.read[0].IsGreeting())
            && (s.greet.Some? ==>
                 s.history.read[0].body == Greeting(s.greet.value) && s.history.greetings == [s.greet.value])
  {
    RunsGreetFirst(exchanger, steps);
  }

  /** After the greeting every wave is passed on in order, to the exchanger if it is an answer and there is one. */
  lemma PassedInOrder(exchanger: bool, steps: seq<Step>)
    requires Run(Fresh(exchanger), steps).Some? && Run(Fresh(exchanger), steps).value.relay.Passing?
    ensures var s := Run(Fresh(exchanger), steps).value;
            && s.history.read != []
            && s.listener == (if exchanger then OnlyDirected(s.history.read[1..]) else s.history.read[1..])
            && s.exchanged == (if exchanger then OnlyReflected(s.history.read[1..]) else [])
  {
    RunsGreetFirst(exchanger, steps);
    ExchangerStays(Fresh(exchanger), steps);
    var s := Run(Fresh(exchanger), steps).value;
    assert AfterGreeting(s) == s.history.read[1..];
  }

  // ------------------------------------------------------------------ a final status is final

  ghost predicate FinalIsClosed(s: Client) {
    && (s.status.IsFinal() <==> !s.statusOpen)
    && (!s.statusOpen ==> s.statuses == [])
    && (s.runner.Failed? || s.runner.Done? ==> !s.statusOpen)
    && s.status == (if s.history.published == [] then Pending else s.history.published[|s.history.published| - 1])
    && forall i | 0 <= i < |s.history.published| - 1 :: !s.history.published[i].IsFinal()
  }

  lemma PublishClosesOnFinal(s: Client)
    requires FinalIsClosed(s) && Enabled(s, Publish)
    ensures FinalIsClosed(Next(s, Publish))
  {
  }

  lemma OtherStepsDoNotPublish(s: Client, step: Step)
    requires FinalIsClosed(s) && Enabled(s, step) && !step.Publish?
    ensures FinalIsClosed(Next(s, step))
  {
    var t := Next(s, step);
    assert t.status == s.status && t.statusOpen == s.statusOpen && t.history.published == s.history.published;
  }

  lemma {:induction false} RunsCloseOnFinal(exchanger: bool, steps: seq<Step>)
    requires Run(Fresh(exchanger), steps).Some?
    ensures FinalIsClosed(Run(Fresh(exchanger), steps).value)
  {
    if steps != [] {
      var init, last := steps[..|steps| - 1], steps[|steps| - 1];
      RunsCloseOnFinal(exchanger, init);
      if last.Publish? {
        PublishClosesOnFinal(Run(Fresh(exchanger), init).value);
      } else {
        OtherStepsDoNotPublish(Run(Fresh(exchanger), init).value, last);
      }
    }
  }

  lemma FinalStays(s: Client, step: Step)
    requires FinalIsClosed(s) && s.status.IsFinal() && Enabled(s, step)
    ensures Next(s, step).status == s.status
    ensures !s.runner.Running? ==> !Next(s, step).runner.Running?
  {
  }

  /** Whatever is observed as fatal or closed stays so, and a runner that is not relaying by then never relays again. */
  lemma {:induction false} FinalStatusIsFinal(exchanger: bool, before: seq<Step>, after: seq<Step>)
    requires Run(Fresh(exchanger), before + after).Some? && Run(Fresh(exchanger), before).Some?
    requires Run(Fresh(exchanger), before).value.status.IsFinal()
    ensures Run(Fresh(exchanger), before + after).value.status == Run(Fresh(exchanger), before).value.status
    ensures !Run(Fresh(exchanger), before).value.runner.Running? ==>
            !Run(Fresh(exchanger), before + after).value.runner.Running?
    decreases |after|
  {
    if after == [] {
      assert before + after == before;
    } else {
      assert (before + after)[..|before + after| - 1] == before + after[..|after| - 1];
      FinalStatusIsFinal(exchanger, before, after[..|after| - 1]);
      RunsCloseOnFinal(exchanger, before + after[..|after| - 1]);
      FinalStays(Run(Fresh(exchanger), before + after[..|after| - 1]).value, after[|after| - 1]);
    }
  }

  // ------------------------------------------------------------------ what a session promises from step to step

  /**
   * A final status and a published greeting stay; what was passed on stays, and more of it only comes after a greeting.
   */
  ghost predicate Keeps(s: Client, t: Client) {
    && (s.status.IsFinal() ==> t.status == s.status)
    && (s.greet.Some? ==> t.greet == s.greet)
    && s.listener <= t.listener && s.exchanged <= t.exchanged
    && (t.listener != s.listener || t.exchanged != s.exchanged ==> s.greet.Some?)
    && (t.greet != s.greet ==> s.history.read == [] && t.history.read != [] && t.history.read[0].IsGreeting())
  }

  lemma StepKeeps(s: Client, step: Step)
    requires GreetingFirst(s) && FinalIsClosed(s) && Enabled(s, step)
    ensures Keeps(s, Next(s, step))
  {
    if !step.ReadFirst? && !step.Pass? {
      OtherStepsDoNotRead(s, step);
    }
  }

  lemma RunSnoc(s: Client, steps: seq<Step>, t: Client, step: Step)
    requires Run(s, steps) == Some(t) && Enabled(t, step)
    ensures Run(s, steps + [step]) == Some(Next(t, step))
  {
    assert (steps + [step])[..|steps|] == steps;
  }

  lemma {:induction false} RunPrefix(s: Client, script: seq<Step>, n: nat)
    requires Run(s, script).Some? && n <= |script|
    ensures Run(s, script[..n]).Some?
    decreases |script| - n
  {
    if n < |script| {
      RunPrefix(s, script, n + 1);
      assert script[..n + 1][..n] == script[..n];
    } else {
      assert script[..n] == script;
    }
  }

  // ------------------------------------------------------------------ refusals

  /** The complaint about a refused greeting is on its way, published, or too late. */
  ghost predicate Complained(s: Client) {
    s.history.read != [] && !s.history.read[0].IsGreeting() ==>
      var complaint := s.history.read[0].Complaint();
      s.relay == Complaining(complaint) || complaint in s.statuses || complaint in s.history.published || !s.statusOpen
  }

  lemma PublishKeepsComplaint(s: Client)
    requires Complained(s) && Enabled(s, Publish)
    ensures Complained(Next(s, Publish))
  {
    assert s.statuses == [s.statuses[0]] + s.statuses[1..];
  }

  lemma ReadFirstComplains(s: Client)
    requires GreetingFirst(s) && Enabled(s, ReadFirst)
    ensures Complained(Next(s, ReadFirst))
  {
    assert Next(s, ReadFirst).history.read == [s.toClient[0]];
  }

  lemma ComplainComplains(s: Client)
    requires GreetingFirst(s) && Enabled(s, Complain)
    ensures Complained(Next(s, Complain))
  {
  }

  lemma PassKeepsComplaint(s: Client, taken: bool)
    requires GreetingFirst(s) && Complained(s) && Enabled(s, Pass(taken))
    ensures Complained(Next(s, Pass(taken)))
  {
  }

  /** Nothing else reads a wave or takes a status back. */
  lemma OthersKeepComplaint(s: Client, step: Step)
    requires Complained(s) && Enabled(s, step)
    requires !step.Publish? && !step.ReadFirst? && !step.Complain? && !step.Pass?
    ensures Complained(Next(s, step))
  {
    var t := Next(s, step);
    assert t.history == s.history && t.statusOpen == s.statusOpen && s.statuses <= t.statuses;
    assert forall status | status in s.statuses :: status in t.statuses;
    assert s.relay.Complaining? ==> t.relay == s.relay;
  }

  lemma {:induction false} RefusalIsReported(exchanger: bool, steps: seq<Step>)
    requires Run(Fresh(exchanger), steps).Some?
    ensures Complained(Run(Fresh(exchanger), steps).value)
  {
    if steps != [] {
      var init, last := steps[..|steps| - 1], steps[|steps| - 1];
      RefusalIsReported(exchanger, init);
      RunsGreetFirst(exchanger, init);
      var s := Run(Fresh(exchanger), init).value;
      match last
      case Publish => PublishKeepsComplaint(s);
      case ReadFirst => ReadFirstComplains(s);
      case Complain => ComplainComplains(s);
      case Pass(taken) => PassKeepsComplaint(s, taken);
      case _ => OthersKeepComplaint(s, last);
    }
  }

  lemma EndedStays(s: Client, step: Step)
    requires s.relay.Ended? && Enabled(s, step)
    ensures Next(s, step).relay.Ended? && Reading(Next(s, step)) == Reading(s)
  {
  }

  /** A relay that has ended passes nothing on any more, whatever the runner still receives. */
  lemma {:induction false} NothingAfterTheEnd(s: Client, steps: seq<Step>)
    requires s.relay.Ended? && Run(s, steps).Some?
    ensures Run(s, steps).value.relay.Ended? && Reading(Run(s, steps).value) == Reading(s)
  {
    if steps != [] {
      NothingAfterTheEnd(s, steps[..|steps| - 1]);
      EndedStays(Run(s, steps[..|steps| - 1]).value, steps[|steps| - 1]);
    }
  }

  // ------------------------------------------------------------------ what the status does not say

  lemma Then(steps: seq<Step>, step: Step) returns (more: seq<Step>)
    requires Run(Fresh(true), steps).Some? && Enabled(Run(Fresh(true), steps).value, step)
    ensures Run(Fresh(true), more) == Some(Next(Run(Fresh(true), steps).value, step))
  {
    more := steps + [step];
    assert more[..|steps|] == steps;
  }

  lemma AboutToConnect() returns (steps: seq<Step>)
    ensures var played := Run(Fresh(true), steps);
            && played.Some?
            && played.value == Fresh(true).(runner := Creating, status := Connecting, history := played.value.history)
    ensures Run(Fresh(true), steps).value.history == Fresh(true).history.(published := [Pending, Connecting])
  {
    steps := Then([], Begin);
    steps := Then(steps, Publish);
    steps := Then(steps, Announce);
    steps := Then(steps, Publish);
  }

  /** The runner says it is ready as soon as it has an endpoint: a ready client need not have been greeted. */
  lemma ReadyBeforeGreeting() returns (steps: seq<Step>)
    ensures var played := Run(Fresh(true), steps);
            && played.Some?
            && played.value == Fresh(true).(runner := Running, status := Ready, history := played.value.history)
    ensures Run(Fresh(true), steps).value.history == Fresh(true).history.(published := [Pending, Connecting, Ready])
  {
    steps := AboutToConnect();
    steps := Then(steps, Create(true));
    steps := Then(steps, SayReady);
    steps := Then(steps, Publish);
  }

  const REFUSAL := Reflected(0, 503, OtherBody)

  lemma FirstWaveArrives() returns (steps: seq<Step>)
    ensures var played := Run(Fresh(true), steps);
            played.Some? && played.value == Fresh(true).(runner := Running, status := Ready, toClient := [REFUSAL],
                                                          history := played.value.history)
  {
    steps := ReadyBeforeGreeting();
    steps := Then(steps, FromRemote(REFUSAL));
    assert [] + [REFUSAL] == [REFUSAL];
  }

  lemma RefusedForNow() returns (steps: seq<Step>)
    ensures var played := Run(Fresh(true), steps);
            && played.Some?
            && played.value ==
               Fresh(true).(runner := Running, relay := Ended, status := Panic, history := played.value.history)
  {
    steps := FirstWaveArrives();
    assert [REFUSAL][1..] == [] && REFUSAL.Complaint() == Panic;
    steps := Then(steps, ReadFirst);
    assert Run(Fresh(true), steps).value.relay == Complaining(Panic);
    steps := Then(steps, Complain);
    assert Run(Fresh(true), steps).value.statuses == [Panic];
    steps := Then(steps, Publish);
  }

  /**
   * A client refused for the time being reports itself ready again after a reset, though nothing will ever be relayed
   * to it.
   */
  lemma ReadyAfterRefusal() returns (steps: seq<Step>)
    ensures var played := Run(Fresh(true), steps);
            played.Some? && played.value.status == Ready && played.value.relay.Ended? && played.value.greet == None
  {
    steps := RefusedForNow();
    steps := Then(steps, ResetAsked);
    steps := Then(steps, Announce);
    assert Run(Fresh(true), steps).value.statuses == [Connecting];
    steps := Then(steps, Publish);
    steps := Then(steps, Create(true));
    steps := Then(steps, SayReady);
    assert Run(Fresh(true), steps).value.statuses == [Ready];
    steps := Then(steps, Publish);
  }

  // ------------------------------------------------------------------ from where a client can still become ready

  /** Among the statuses mailed, none that is final comes before the first `Ready`. */
  predicate NoFinalBeforeReady(statuses: seq<Status>) {
    statuses == [] || statuses[0].Ready? || (!statuses[0].IsFinal() && NoFinalBeforeReady(statuses[1..]))
  }

  /** What is mailed later does not matter once a final status is ahead of it. */
  lemma {:induction false} FinalStaysAhead(statuses: seq<Status>, more: seq<Status>)
    requires !NoFinalBeforeReady(statuses)
    ensures !NoFinalBeforeReady(statuses + more)
  {
    assert (statuses + more)[0] == statuses[0] && (statuses + more)[1..] == statuses[1..] + more;
    if !statuses[0].IsFinal() {
      FinalStaysAhead(statuses[1..], more);
    }
  }

  predicate CanBecomeReady(s: Client) {
    s.status.Ready? || (s.statusOpen && NoFinalBeforeReady(s.statuses))
  }

  lemma OnlyPublishPublishes(s: Client, step: Step)
    requires Enabled(s, step) && !step.Publish?
    ensures Next(s, step).status == s.status && Next(s, step).statusOpen == s.statusOpen
    ensures s.statuses <= Next(s, step).statuses
  {
  }

  lemma StaysDoomed(s: Client, step: Step)
    requires Enabled(s, step) && !CanBecomeReady(s)
    ensures !CanBecomeReady(Next(s, step))
  {
    if !step.Publish? {
      OnlyPublishPublishes(s, step);
      var t := Next(s, step);
      if s.statusOpen {
        assert t.statuses == s.statuses + t.statuses[|s.statuses|..];
        FinalStaysAhead(s.statuses, t.statuses[|s.statuses|..]);
      }
    }
  }

  lemma {:induction false} DoomedForever(s: Client, after: seq<Step>)
    requires Run(s, after).Some? && !CanBecomeReady(s)
    ensures !CanBecomeReady(Run(s, after).value)
  {
    if after != [] {
      DoomedForever(s, after[..|after| - 1]);
      StaysDoomed(Run(s, after[..|after| - 1]).value, after[|after| - 1]);
    }
  }

  lemma {:induction false} RunConcat(s: Client, before: seq<Step>, after: seq<Step>)
    requires Run(s, before).Some?
    ensures Run(s, before + after) == Run(Run(s, before).value, after)
    decreases |after|
  {
    if after == [] {
      assert before + after == before;
    } else {
      assert (before + after)[..|before + after| - 1] == before + after[..|after| - 1];
      RunConcat(s, before, after[..|after| - 1]);
    }
  }

  /** How many steps a runner is away from saying that it is ready. */
  function Distance(phase: RunnerPhase): nat {
    match phase
    case Starting => 4
    case Running => 4
    case Announcing => 3
    case Creating => 2
    case Readying => 1
    case Failed => 0
    case Done => 0
  }

  /** What brings a runner nearer to it, if the outside goes along. */
  function Forward(phase: RunnerPhase): Step
    requires !phase.Failed? && !phase.Done?
  {
    match phase
    case Starting => Begin
    case Running => ResetAsked
    case Announcing => Announce
    case Creating => Create(true)
    case Readying => SayReady
  }

  lemma OneAfter(s: Client, step: Step, rest: seq<Step>)
    requires Enabled(s, step)
    ensures Run(s, [step] + rest) == Run(Next(s, step), rest)
  {
    assert [step][..0] == [];
    assert Run(s, [step]) == Some(Next(s, step));
    RunConcat(s, [step], rest);
  }

  /** With the mailbox empty a runner that is about to say so makes the client ready. */
  lemma SaysReady(s: Client)
    requires s.statusOpen && s.statuses == [] && s.runner.Readying?
    ensures Run(s, [SayReady, Publish]).Some? && Run(s, [SayReady, Publish]).value.status.Ready?
  {
    assert [SayReady, Publish] == [SayReady] + [Publish] && [Publish] == [Publish] + [];
    OneAfter(s, SayReady, [Publish]);
    assert Next(s, SayReady).statuses == [Ready];
    OneAfter(Next(s, SayReady), Publish, []);
  }

  lemma StepForward(s: Client)
    requires FinalIsClosed(s) && s.statusOpen && s.statuses == [] && !s.runner.Readying?
    ensures !s.runner.Failed? && !s.runner.Done?
    ensures Enabled(s, Forward(s.runner))
    ensures var t := Next(s, Forward(s.runner));
            FinalIsClosed(t) && CanBecomeReady(t) && Distance(t.runner) < Distance(s.runner)
  {
    OtherStepsDoNotPublish(s, Forward(s.runner));
    var t := Next(s, Forward(s.runner));
    assert t.statuses == [] || t.statuses == [Pending] || t.statuses == [Connecting];
  }

  /** Once the mailed statuses are published the runner gets there, if nothing comes in its way. */
  lemma {:induction false} GetsReady(s: Client) returns (after: seq<Step>)
    requires FinalIsClosed(s) && CanBecomeReady(s)
    ensures Run(s, after).Some? && Run(s, after).value.status.Ready?
    decreases Distance(s.runner), |s.statuses|
  {
    if s.status.Ready? {
      after := [];
    } else if s.statuses == [] && s.runner.Readying? {
      after := [SayReady, Publish];
      SaysReady(s);
    } else {
      var step;
      if s.statuses == [] {
        step := Forward(s.runner);
        StepForward(s);
      } else {
        step := Publish;
        PublishClosesOnFinal(s);
      }
      var rest := GetsReady(Next(s, step));
      OneAfter(s, step, rest);
      after := [step] + rest;
    }
  }

  /**
   * From every reachable state: some continuation reaches `Ready` iff it is reached, or the status task still listens
   * and no final status has been mailed ahead of the first `Ready`.
   */
  lemma ReadyReachableExactly(exchanger: bool, before: seq<Step>)
    requires Run(Fresh(exchanger), before).Some?
    ensures var s := Run(Fresh(exchanger), before).value;
            (exists after :: Run(s, after).Some? && Run(s, after).value.status.Ready?) <==>
            s.status.Ready? || (s.statusOpen && NoFinalBeforeReady(s.statuses))
  {
    var s := Run(Fresh(exchanger), before).value;
    RunsCloseOnFinal(exchanger, before);
    if CanBecomeReady(s) {
      var after := GetsReady(s);
    } else {
      forall after | Run(s, after).Some?
        ensures !Run(s, after).value.status.Ready?
      {
        DoomedForever(s, after);
      }
    }
  }
}
