/** The client's three tasks as methods of one object, which is at every moment where some run of `ClientSpec` leads. */
module ClientActor {
  import opened Wrappers
  import opened ClientSpec
  import opened ClientReports

  /** The runner's step while it is not relaying; `made` says whether the factory has made an endpoint. */
  function ConnectStep(phase: RunnerPhase, made: bool): Step {
    match phase
    case Starting => Begin
    case Announcing => Announce
    case Creating => Create(made)
    case Readying => SayReady
    case _ => GiveUp
  }

  /** What the runner hears of while it is relaying. */
  predicate IsRelayed(step: Step) {
    step.FromRemote? || step.RemoteGone? || step.ClientGone? || step.ResetAsked? || step.CloseAsked? || step.ToRemote?
  }

  /** The relay's step; `taken` says whether a listener or the exchanger takes the wave. */
  function RelayStep(phase: RelayPhase, taken: bool): Step {
    match phase
    case AwaitGreeting => ReadFirst
    case Complaining(_) => Complain
    case Passing => Pass(taken)
    case Ended => RelayOver
  }

  class HyperClient {
    var runner: RunnerPhase
    var relay: RelayPhase
    var statusOpen: bool
    var statuses: seq<Status>
    var status: Status
    var toClient: seq<Incoming>
    var greet: Option<Greet>
    const exchanger: bool
    var listener: seq<Incoming>
    var exchanged: seq<Incoming>
    ghost var history: History
    ghost var steps: seq<Step>

    ghost function State(): Client
      reads this
    {
      Client(runner, relay, statusOpen, statuses, status, toClient, greet, exchanger, listener, exchanged, history)
    }

    /** The client is where the steps taken so far lead, so that what holds over every run holds of it. */
    ghost predicate Valid()
      reads this
    {
      Run(Fresh(exchanger), steps) == Some(State())
    }

    /**
     * Nothing is handed on before a greeting, there is at most one, and the status task ends with a final status; waves
     * are read as they were sent, and each published status has its cause.
     */
    lemma Promises()
      requires Valid()
      ensures listener != [] || exchanged != [] ==> greet.Some?
      ensures greet.Some? <==> history.read != [] && history.read[0].IsGreeting()
      ensures |history.greetings| <= 1 && (status.IsFinal() <==> !statusOpen)
      ensures history.read + toClient <= SentBy(steps) && (!relay.Ended? ==> history.read + toClient == SentBy(steps))
      ensures forall status | status in history.published :: HasCause(status, steps)
    {
      ReadInSendingOrder(exchanger, steps);
      EachStatusHasItsCause(exchanger, steps);
      NothingBeforeGreeting(exchanger, steps);
      RunsCloseOnFinal(exchanger, steps);
    }

    lemma Foresee(step: Step)
      requires Valid() && Enabled(State(), step)
      ensures Run(Fresh(exchanger), steps + [step]) == Some(Next(State(), step)) && Keeps(State(), Next(State(), step))
    {
      RunSnoc(Fresh(exchanger), steps, State(), step);
      RunsGreetFirst(exchanger, steps);
      RunsCloseOnFinal(exchanger, steps);
      StepKeeps(State(), step);
    }

    constructor (exchanger: bool)
      ensures Valid() && steps == [] && this.exchanger == exchanger
    {
      runner, relay, statusOpen, statuses, status := Starting, AwaitGreeting, true, [], Pending;
      toClient, greet, listener, exchanged := [], None, [], [];
      this.exchanger := exchanger;
      history := History([], [], [], []);
      steps := [];
    }

    method SendStatus(next: Status) returns (sent: bool)
      requires CanSend(State())
      modifies this`statuses
      ensures State() == Send(old(State()), next) && sent == statusOpen
    {
      sent := statusOpen;
      if sent {
        statuses := statuses + [next];
      }
    }

    method TakeStatus()
      requires statusOpen && statuses != []
      modifies this`status, this`statuses, this`statusOpen, this`history
      ensures State() == PublishNext(old(State()))
    {
      status := statuses[0];
      statuses := statuses[1..];
      history := history.(published := history.published + [status]);
      if status == Fatal || status == Closed {
        statusOpen := false;
        statuses := [];
      }
    }

    /** One turn of the status task. It cannot have published a final status before, and stops if it does now. */
    method PublishStatus()
      requires Valid() && Enabled(State(), Publish)
      modifies this
      ensures Valid() && steps == old(steps) + [Publish] && Keeps(old(State()), State())
      ensures !old(status).IsFinal() && (status.IsFinal() <==> !statusOpen)
    {
      Foresee(Publish);
      Promises();
      steps := steps + [Publish];
      TakeStatus();
    }

    method TakeWave() returns (wave: Incoming)
      requires toClient != []
      modifies this`toClient, this`history
      ensures wave == old(toClient)[0] && toClient == old(toClient)[1..]
      ensures history == old(history).(read := old(history).read + [wave])
    {
      wave := toClient[0];
      toClient := toClient[1..];
      history := history.(read := history.read + [wave]);
    }

    /** The first wave must be a reflected success that carries a greeting. */
    method ReceiveFirst()
      requires Enabled(State(), ReadFirst)
      modifies this`toClient, this`history, this`relay, this`greet
      ensures State() == Next(old(State()), ReadFirst)
    {
      var wave := TakeWave();
      match wave
      case Directed(_) =>
        relay := Complaining(Fatal);
      case Reflected(_, code, body) =>
        if !(200 <= code < 300) {
          relay := Complaining(if code == 400 || code == 401 || code == 403 || code == 301 then Fatal else Panic);
        } else {
          match body
          case OtherBody =>
            relay := Complaining(Fatal);
          case Greeting(published) =>
            greet := Some(published);
            history := history.(greetings := history.greetings + [published]);
            relay := Passing;
        }
    }

    /** Every later wave goes to the exchanger or to the listeners; `taken` says whether they took it. */
    method ReceiveNext(taken: bool)
      requires Enabled(State(), Pass(taken))
      modifies this`toClient, this`history, this`relay, this`listener, this`exchanged
      ensures State() == Next(old(State()), Pass(taken))
    {
      var wave := TakeWave();
      if !taken {
        relay := Ended;
        toClient := [];
        history := history.(dropped := history.dropped + [wave]);
      } else if exchanger {
        if wave.Directed? {
          listener := listener + [wave];
        } else {
          exchanged := exchanged + [wave];
        }
      } else {
        listener := listener + [wave];
      }
    }

    /** One turn of the relay task: it greets once, complains once, or passes on what it has been greeted for. */
    method RelayTurn(taken: bool)
      requires Valid() && !relay.Ended? && Enabled(State(), RelayStep(relay, taken))
      modifies this
      ensures Valid() && steps == old(steps) + [RelayStep(old(relay), taken)] && Keeps(old(State()), State())
      ensures greet.Some? || (listener == [] && exchanged == [])
    {
      ghost var step := RelayStep(relay, taken);
      Foresee(step);
      Promises();
      steps := steps + [step];
      match relay {
        case AwaitGreeting =>
          ReceiveFirst();
        case Complaining(complaint) =>
          var _ := SendStatus(complaint);
          relay := Ended;
          toClient := [];
        case Passing =>
          ReceiveNext(taken);
      }
    }

    /**
     * One turn of the runner towards a connection; once the status task has stopped, none leads to relaying any more.
     */
    method RunnerConnects(made: bool)
      requires Valid() && !runner.Running? && !runner.Done? && Enabled(State(), ConnectStep(runner, made))
      modifies this
      ensures Valid() && steps == old(steps) + [ConnectStep(old(runner), made)] && Keeps(old(State()), State())
      ensures old(status).IsFinal() ==> !runner.Running?
      ensures runner.Done? ==> status.IsFinal()
    {
      ghost var step := ConnectStep(runner, made);
      Foresee(step);
      RunsCloseOnFinal(exchanger, steps);
      steps := steps + [step];
      match runner {
        case Starting =>
          var _ := SendStatus(Pending);
          runner := Announcing;
        case Announcing =>
          var sent := SendStatus(Connecting);
          runner := if sent then Creating else Failed;
        case Creating =>
          if made {
            runner := Readying;
          }
        case Readying =>
          var sent := SendStatus(Ready);
          runner := if sent then Running else Failed;
        case Failed =>
          var _ := SendStatus(Fatal);
          runner := Done;
      }
    }

    /** What the runner hears while relaying: a wave for the client, a request, or that one of the two sides is gone. */
    method RunnerRelays(step: Step)
      requires Valid() && IsRelayed(step) && Enabled(State(), step)
      modifies this
      ensures Valid() && steps == old(steps) + [step] && Keeps(old(State()), State())
      ensures listener == old(listener) && exchanged == old(exchanged) && greet == old(greet) && status == old(status)
      ensures toClient == old(toClient) + if step.FromRemote? && !relay.Ended? then [step.wave] else []
      ensures runner.Running? <==> !Leaves(step)
    {
      Foresee(step);
      steps := steps + [step];
      if step.FromRemote? {
        if !relay.Ended? {
          toClient := toClient + [step.wave];
        }
      } else if step.CloseAsked? {
        var _ := SendStatus(Closed);
        runner := Announcing;
      } else if !step.ToRemote? || !step.sent {
        runner := Announcing;
      }
    }

    /** One turn of whichever task the step belongs to. */
    method Turn(step: Step)
      requires Valid() && Enabled(State(), step)
      modifies this
      ensures Valid() && steps == old(steps) + [step] && Keeps(old(State()), State())
    {
      if step.Publish? {
        PublishStatus();
      } else if step.ReadFirst? || step.Complain? || step.Pass? {
        RelayTurn(if step.Pass? then step.taken else true);
      } else if step.RelayOver? {
        Foresee(step);
        steps := steps + [step];
        relay := Ended;
      } else if IsRelayed(step) {
        RunnerRelays(step);
      } else {
        RunnerConnects(if step.Create? then step.made else true);
      }
    }
  }

  /** Every interleaving of the three tasks is one of the object. */
  method Session(exchanger: bool, script: seq<Step>) returns (client: HyperClient)
    requires Run(Fresh(exchanger), script).Some?
    ensures fresh(client) && client.Valid() && client.exchanger == exchanger && client.steps == script
    ensures Run(Fresh(exchanger), script) == Some(client.State())
    ensures client.listener != [] || client.exchanged != [] ==> client.greet.Some?
  {
    client := new HyperClient(exchanger);
    for i := 0 to |script|
      invariant fresh(client) && client.Valid() && client.exchanger == exchanger && client.steps == script[..i]
    {
      RunPrefix(Fresh(exchanger), script, i + 1);
      assert script[..i + 1][..i] == script[..i];
      client.Turn(script[i]);
    }
    assert script[..|script|] == script;
    client.Promises();
  }
}
