/** What a client session reads, in what order, and what each status it reports stands for. */
module ClientReports {
  import opened Wrappers
  import opened Loc
  import opened Transforms
  import opened ClientSpec

  // ------------------------------------------------------------------ first sent, first read

  /** The waves the remote has sent along a run. */
  function SentBy(steps: seq<Step>): seq<Incoming> {
    if steps == [] then []
    else
      var last := steps[|steps| - 1];
      SentBy(steps[..|steps| - 1]) + if last.FromRemote? then [last.wave] else []
  }

  /** Read so far, and then what waits to be read: all that was sent, or what of it came before the relay ended. */
  ghost predicate InSendingOrder(s: Client, sent: seq<Incoming>) {
    && s.history.read + s.toClient <= sent
    && (!s.relay.Ended? ==> s.history.read + s.toClient == sent)
  }

  lemma HeadMoves(read: seq<Incoming>, mail: seq<Incoming>)
    requires mail != []
    ensures read + mail == (read + [mail[0]]) + mail[1..] && read + [mail[0]] <= read + mail
  {
  }

  lemma ReadingTakesHead(s: Client, step: Step)
    requires Enabled(s, step) && (step.ReadFirst? || step.Pass?)
    ensures var t := Next(s, step);
            && t.history.read == s.history.read + [s.toClient[0]]
            && (t.toClient == s.toClient[1..] || (t.toClient == [] && t.relay.Ended?))
  {
  }

  lemma ReadingKeepsOrder(s: Client, step: Step, sent: seq<Incoming>)
    requires InSendingOrder(s, sent) && Enabled(s, step) && (step.ReadFirst? || step.Pass?)
    ensures InSendingOrder(Next(s, step), sent)
  {
    HeadMoves(s.history.read, s.toClient);
    ReadingTakesHead(s, step);
    var t := Next(s, step);
    assert t.relay.Ended? ==> t.history.read + [] == t.history.read;
  }

  lemma SendingKeepsOrder(s: Client, wave: Incoming, sent: seq<Incoming>)
    requires InSendingOrder(s, sent) && Enabled(s, FromRemote(wave))
    ensures InSendingOrder(Next(s, FromRemote(wave)), sent + [wave])
  {
    assert s.history.read + (s.toClient + [wave]) == (s.history.read + s.toClient) + [wave];
  }

  lemma OtherStepsKeepOrder(s: Client, step: Step, sent: seq<Incoming>)
    requires InSendingOrder(s, sent) && Enabled(s, step) && !step.ReadFirst? && !step.Pass? && !step.FromRemote?
    ensures InSendingOrder(Next(s, step), sent)
  {
    OtherStepsDoNotRead(s, step);
    var t := Next(s, step);
    assert t.toClient == s.toClient || (t.toClient == [] && t.relay.Ended?);
    assert s.history.read <= s.history.read + s.toClient;
  }

  /**
   * Over every interleaving: the relay reads the waves in the order in which the remote sent them, leaving none out;
   * while it has not ended, what it has not read waits for it in that order.
   */
  lemma {:induction false} ReadInSendingOrder(exchanger: bool, steps: seq<Step>)
    requires Run(Fresh(exchanger), steps).Some?
    ensures var s, sent := Run(Fresh(exchanger), steps).value, SentBy(steps);
            && s.history.read + s.toClient <= sent
            && (!s.relay.Ended? ==> s.history.read + s.toClient == sent)
  {
    if steps != [] {
      var init, last := steps[..|steps| - 1], steps[|steps| - 1];
      ReadInSendingOrder(exchanger, init);
      var s, sent := Run(Fresh(exchanger), init).value, SentBy(init);
      assert InSendingOrder(s, sent) && sent + [] == sent;
      match last
      case FromRemote(wave) => SendingKeepsOrder(s, wave, sent);
      case ReadFirst => ReadingKeepsOrder(s, last, sent);
      case Pass(_) => ReadingKeepsOrder(s, last, sent);
      case _ => OtherStepsKeepOrder(s, last, sent);
      assert InSendingOrder(Next(s, last), SentBy(steps));
    }
  }

  /** The first wave read is the first one sent. */
  lemma FirstReadIsFirstSent(exchanger: bool, steps: seq<Step>)
    requires Run(Fresh(exchanger), steps).Some? && Run(Fresh(exchanger), steps).value.history.read != []
    ensures SentBy(steps) != [] && Run(Fresh(exchanger), steps).value.history.read[0] == SentBy(steps)[0]
  {
    ReadInSendingOrder(exchanger, steps);
    var s := Run(Fresh(exchanger), steps).value;
    assert (s.history.read + s.toClient)[0] == s.history.read[0];
  }

  /**
   * Once the relay has read anything, it has greeted iff the first wave ever sent is a reflected success with a
   * greeting.
   */
  lemma GreetedByFirstSent(exchanger: bool, steps: seq<Step>, greet: Greet)
    requires Run(Fresh(exchanger), steps).Some? && Run(Fresh(exchanger), steps).value.history.read != []
    ensures SentBy(steps) != []
    ensures Run(Fresh(exchanger), steps).value.greet == Some(greet) <==>
            var first := SentBy(steps)[0]; first.Reflected? && 200 <= first.code < 300 && first.body == Greeting(greet)
  {
    FirstReadIsFirstSent(exchanger, steps);
    RunsGreetFirst(exchanger, steps);
  }

  lemma PartOfPrefix(read: seq<Incoming>, sent: seq<Incoming>, n: nat)
    requires read <= sent && 1 <= n <= |read|
    ensures read[1..n] == sent[1..n]
  {
  }

  /**
   * Whatever the runner receives, and whenever: listener and exchanger have been handed the waves sent right after the
   * greeting, in sending order and without a gap, all those read but the one whose refusal ended the relay.
   */
  lemma HandedOnAsSent(exchanger: bool, steps: seq<Step>)
    requires Run(Fresh(exchanger), steps).Some? && Run(Fresh(exchanger), steps).value.greet.Some?
    ensures var s, sent := Run(Fresh(exchanger), steps).value, SentBy(steps);
            var n := |s.history.read| - |s.history.dropped|;
            && 1 <= n <= |sent| && |s.history.dropped| <= 1
            && (!s.relay.Ended? ==> n + |s.toClient| == |sent|)
            && s.listener == (if exchanger then OnlyDirected(sent[1..n]) else sent[1..n])
            && s.exchanged == (if exchanger then OnlyReflected(sent[1..n]) else [])
  {
    var s, sent := Run(Fresh(exchanger), steps).value, SentBy(steps);
    ReadInSendingOrder(exchanger, steps);
    RunsGreetFirst(exchanger, steps);
    ExchangerStays(Fresh(exchanger), steps);
    assert s.history.read <= s.history.read + s.toClient <= sent;
    PartOfPrefix(s.history.read, sent, |s.history.read| - |s.history.dropped|);
  }

  // ------------------------------------------------------------------ what a status stands for

  /** Every status the status task has published or is going to, unless a final one stops it before. */
  function Reported(s: Client): seq<Status> {
    s.history.published + s.statuses
  }

  /** Whether the first wave of the remote refuses the client for good. */
  predicate RefusesForGood(sent: seq<Incoming>) {
    sent != [] && (sent[0].Directed? || sent[0].code in {400, 401, 403, 301} ||
                   (200 <= sent[0].code < 300 && sent[0].body.OtherBody?))
  }

  predicate RefusesForNow(sent: seq<Incoming>) {
    sent != [] && sent[0].Reflected? && sent[0].code !in {400, 401, 403, 301} && !(200 <= sent[0].code < 300)
  }

  ghost predicate HasCause(status: Status, steps: seq<Step>) {
    match status
    case Pending => Begin in steps
    case Connecting => Announce in steps
    case Ready => Create(true) in steps
    case Panic => RefusesForNow(SentBy(steps))
    case Fatal => RefusesForGood(SentBy(steps))
    case Closed => CloseAsked in steps
  }

  lemma ComplaintByCode(wave: Incoming)
    requires !wave.IsGreeting()
    ensures wave.Complaint() == Fatal <==> RefusesForGood([wave])
    ensures wave.Complaint() == Panic <==> RefusesForNow([wave])
  {
  }

  lemma FirstSentStays(steps: seq<Step>, step: Step)
    requires SentBy(steps) != []
    ensures SentBy(steps + [step]) != [] && SentBy(steps + [step])[0] == SentBy(steps)[0]
  {
    assert (steps + [step])[..|steps|] == steps;
  }

  lemma CauseStays(status: Status, steps: seq<Step>, step: Step)
    requires HasCause(status, steps)
    ensures HasCause(status, steps + [step])
  {
    if status.Panic? || status.Fatal? {
      FirstSentStays(steps, step);
    }
  }

  /** The one status a step may send. */
  function SentStatus(s: Client, step: Step): Option<Status> {
    match step
    case Begin => Some(Pending)
    case Announce => Some(Connecting)
    case SayReady => Some(Ready)
    case GiveUp => Some(Fatal)
    case CloseAsked => Some(Closed)
    case Complain => if s.relay.Complaining? then Some(s.relay.status) else None
    case _ => None
  }

  lemma ReportedStep(s: Client, step: Step)
    requires Enabled(s, step) && FinalIsClosed(s)
    ensures forall status | status in Reported(Next(s, step)) ::
              status in Reported(s) || (s.statusOpen && SentStatus(s, step) == Some(status))
  {
    if step.Publish? {
      assert s.statuses == [s.statuses[0]] + s.statuses[1..];
    }
  }

  /** The runner has an endpoint once it is about to say so. */
  ghost predicate Made(s: Client, steps: seq<Step>) {
    s.runner.Readying? ==> Create(true) in steps
  }

  lemma NewHasCause(exchanger: bool, steps: seq<Step>, step: Step)
    requires Run(Fresh(exchanger), steps).Some? && Enabled(Run(Fresh(exchanger), steps).value, step)
    requires Made(Run(Fresh(exchanger), steps).value, steps)
    requires Run(Fresh(exchanger), steps).value.statusOpen
    requires SentStatus(Run(Fresh(exchanger), steps).value, step).Some?
    ensures HasCause(SentStatus(Run(Fresh(exchanger), steps).value, step).value, steps + [step])
  {
    var s := Run(Fresh(exchanger), steps).value;
    RunsCloseOnFinal(exchanger, steps);
    if step.Complain? {
      RunsGreetFirst(exchanger, steps);
      FirstReadIsFirstSent(exchanger, steps);
      ComplaintByCode(s.history.read[0]);
      CauseStays(s.relay.status, steps, step);
    }
  }

  /**
   * Over every interleaving a reported status has its cause: `Ready` an endpoint that was made, `Closed` a request to
   * close, `Panic` a first wave that refuses for now, and `Fatal` one that refuses for good. (So the `Fatal` that a
   * runner sends on giving up is never reported.)
   */
  lemma {:induction false} EachStatusHasItsCause(exchanger: bool, steps: seq<Step>)
    requires Run(Fresh(exchanger), steps).Some?
    ensures Made(Run(Fresh(exchanger), steps).value, steps)
    ensures forall status | status in Reported(Run(Fresh(exchanger), steps).value) :: HasCause(status, steps)
  {
    if steps != [] {
      var init, last := steps[..|steps| - 1], steps[|steps| - 1];
      EachStatusHasItsCause(exchanger, init);
      RunsCloseOnFinal(exchanger, init);
      var s := Run(Fresh(exchanger), init).value;
      assert steps == init + [last];
      ReportedStep(s, last);
      forall status | status in Reported(Next(s, last))
        ensures HasCause(status, steps)
      {
        if status in Reported(s) {
          CauseStays(status, init, last);
        } else {
          NewHasCause(exchanger, init, last);
        }
      }
    }
  }

  /** And the other way round: once the first wave is read, a refusal is under way, reported, or too late. */
  lemma RefusalIsReportedByCode(exchanger: bool, steps: seq<Step>)
    requires Run(Fresh(exchanger), steps).Some? && Run(Fresh(exchanger), steps).value.history.read != []
    ensures var s := Run(Fresh(exchanger), steps).value;
            && (RefusesForGood(SentBy(steps)) ==>
                  s.relay == Complaining(Fatal) || Fatal in Reported(s) || !s.statusOpen)
            && (RefusesForNow(SentBy(steps)) ==>
                  s.relay == Complaining(Panic) || Panic in Reported(s) || !s.statusOpen)
  {
    RefusalIsReported(exchanger, steps);
    FirstReadIsFirstSent(exchanger, steps);
    var first := SentBy(steps)[0];
    if !first.IsGreeting() {
      ComplaintByCode(first);
    }
  }

  lemma ReportedStays(s: Client, step: Step, status: Status)
    requires Enabled(s, step) && FinalIsClosed(s) && (status in Reported(s) || !s.statusOpen)
    ensures status in Reported(Next(s, step)) || !Next(s, step).statusOpen
  {
    if step.Publish? {
      assert s.statuses == [s.statuses[0]] + s.statuses[1..];
    }
  }

  /** A request to close is reported, unless the status task has stopped before. */
  lemma {:induction false} ClosingIsReported(exchanger: bool, steps: seq<Step>)
    requires Run(Fresh(exchanger), steps).Some? && CloseAsked in steps
    ensures var s := Run(Fresh(exchanger), steps).value; Closed in Reported(s) || !s.statusOpen
  {
    var init, last := steps[..|steps| - 1], steps[|steps| - 1];
    RunsCloseOnFinal(exchanger, init);
    var s := Run(Fresh(exchanger), init).value;
    if CloseAsked in init {
      ClosingIsReported(exchanger, init);
      ReportedStays(s, last, Closed);
    } else {
      assert last == CloseAsked;
    }
  }

  // ------------------------------------------------------------------ attempts to connect

  /** How often a status occurs. */
  function Times(statuses: seq<Status>, status: Status): nat {
    multiset(statuses)[status]
  }

  /** The steps by which a runner leaves its connection. */
  predicate Leaves(step: Step) {
    step in {RemoteGone, ClientGone, ResetAsked, CloseAsked, ToRemote(false)}
  }

  function Leavings(steps: seq<Step>): nat {
    if steps == [] then 0 else Leavings(steps[..|steps| - 1]) + if Leaves(steps[|steps| - 1]) then 1 else 0
  }

  /**
   * How many connections there have been, and whether another attempt has been announced, both read off the reports.
   */
  ghost predicate Attempted(s: Client, steps: seq<Step>) {
    s.statusOpen ==>
      && Times(Reported(s), Pending) == (if s.runner.Starting? then 0 else 1)
      && Times(Reported(s), Ready) == Leavings(steps) + (if s.runner.Running? then 1 else 0)
      && Times(Reported(s), Connecting) ==
         Times(Reported(s), Ready) + (if s.runner.Creating? || s.runner.Readying? then 1 else 0)
  }

  lemma ReportedNext(s: Client, step: Step)
    requires FinalIsClosed(s) && Enabled(s, step) && Next(s, step).statusOpen
    ensures s.statusOpen
    ensures Reported(Next(s, step)) ==
            Reported(s) + if SentStatus(s, step).Some? then [SentStatus(s, step).value] else []
  {
    if step.Publish? {
      assert s.statuses == [s.statuses[0]] + s.statuses[1..];
    }
  }

  /** The relay only ever complains of a panic or of something fatal. */
  lemma ComplaintsOnly(s: Client)
    requires GreetingFirst(s) && s.relay.Complaining?
    ensures s.relay.status.Panic? || s.relay.status.Fatal?
  {
  }

  lemma RunnerStep(s: Client, step: Step)
    requires Enabled(s, step) && s.statusOpen && FinalIsClosed(s)
    ensures var t := Next(s, step).runner;
            t == if step.Begin? || Leaves(step) then Announcing
                 else if step.Announce? then Creating
                 else if step == Create(true) then Readying
                 else if step.SayReady? then Running
                 else s.runner
    ensures Leaves(step) ==> s.runner.Running?
    ensures step.Begin? ==> s.runner.Starting?
    ensures step.Announce? ==> s.runner.Announcing?
    ensures step.Create? ==> s.runner.Creating?
    ensures step.SayReady? ==> s.runner.Readying?
  {
  }

  lemma AttemptedStep(s: Client, steps: seq<Step>, step: Step)
    requires Attempted(s, steps) && FinalIsClosed(s) && GreetingFirst(s) && Enabled(s, step)
    ensures Attempted(Next(s, step), steps + [step])
  {
    var t := Next(s, step);
    assert (steps + [step])[..|steps|] == steps;
    if t.statusOpen {
      ReportedNext(s, step);
      RunnerStep(s, step);
      if s.relay.Complaining? {
        ComplaintsOnly(s);
      }
    }
  }

  /**
   * As long as the status task listens: a runner reports that it is pending once, that it is ready once for each
   * connection it has had, whichever of the five ways it left the others, and each time after having reported that it
   * is connecting.
   */
  lemma {:induction false} ReportsCountConnections(exchanger: bool, steps: seq<Step>)
    requires Run(Fresh(exchanger), steps).Some?
    ensures Attempted(Run(Fresh(exchanger), steps).value, steps)
  {
    if steps != [] {
      var init, last := steps[..|steps| - 1], steps[|steps| - 1];
      ReportsCountConnections(exchanger, init);
      RunsCloseOnFinal(exchanger, init);
      RunsGreetFirst(exchanger, init);
      AttemptedStep(Run(Fresh(exchanger), init).value, init, last);
      assert steps == init + [last];
    }
  }

  // ------------------------------------------------------------------ how much waits

  function Arrivals(waves: seq<Incoming>): seq<Step> {
    seq(|waves|, i requires 0 <= i < |waves| => FromRemote(waves[i]))
  }

  /** A relaying runner takes in as many waves as there is room for in a channel of 1024, and not one more. */
  lemma {:induction false} InboxHoldsExactly(s: Client, waves: seq<Incoming>)
    requires s.runner.Running? && !s.relay.Ended? && |s.toClient| <= 1024
    ensures Run(s, Arrivals(waves)).Some? <==> |s.toClient| + |waves| <= 1024
    ensures |s.toClient| + |waves| <= 1024 ==> Run(s, Arrivals(waves)) == Some(s.(toClient := s.toClient + waves))
    decreases |waves|
  {
    if waves == [] {
      assert s.toClient + [] == s.toClient;
    } else {
      var n := |waves| - 1;
      InboxHoldsExactly(s, waves[..n]);
      assert Arrivals(waves)[..n] == Arrivals(waves[..n]);
      assert s.toClient + waves[..n] + [waves[n]] == s.toClient + waves;
    }
  }

  /** Over every run at most 128 statuses wait, since whoever would send another one has to wait. */
  lemma {:induction false} StatusesFit(exchanger: bool, steps: seq<Step>)
    requires Run(Fresh(exchanger), steps).Some?
    ensures |Run(Fresh(exchanger), steps).value.statuses| <= 128
  {
    if steps != [] {
      StatusesFit(exchanger, steps[..|steps| - 1]);
      StatusesStayFew(Run(Fresh(exchanger), steps[..|steps| - 1]).value, steps[|steps| - 1]);
    }
  }

  lemma StatusesStayFew(s: Client, step: Step)
    requires Enabled(s, step) && |s.statuses| <= 128
    ensures |Next(s, step).statuses| <= 128
  {
  }

  /** After `n` statuses that nobody has published. */
  ghost predicate PiledUp(s: Client, n: nat) {
    && s.statusOpen && |s.statuses| == n && s.history.published == []
    && (s.runner.Starting? || s.runner.Announcing? || s.runner.Creating?)
  }

  lemma OneStatusMore(s: Client)
    requires s.statusOpen && |s.statuses| < 128
    ensures s.runner.Starting? ==>
              && Enabled(s, Begin)
              && Next(s, Begin) == s.(runner := Announcing, statuses := s.statuses + [Pending])
    ensures s.runner.Announcing? ==>
              && Enabled(s, Announce)
              && Next(s, Announce) == s.(runner := Creating, statuses := s.statuses + [Connecting])
  {
  }

  lemma ReadyAndBack(s: Client)
    requires s.runner.Creating? && s.statusOpen && |s.statuses| < 128
    ensures Enabled(s, Create(true)) && Next(s, Create(true)) == s.(runner := Readying)
    ensures var t := s.(runner := Readying);
            Enabled(t, SayReady) && Next(t, SayReady) == s.(runner := Running, statuses := s.statuses + [Ready])
    ensures var t := s.(runner := Running, statuses := s.statuses + [Ready]);
            Enabled(t, ResetAsked) && Next(t, ResetAsked) == t.(runner := Announcing)
  {
  }

  lemma ReadyOnceMore(s: Client, steps: seq<Step>, t: Client) returns (more: seq<Step>)
    requires Run(s, steps) == Some(t) && t.runner.Creating? && t.statusOpen && |t.statuses| < 128
    ensures Run(s, more) == Some(t.(runner := Announcing, statuses := t.statuses + [Ready]))
  {
    ReadyAndBack(t);
    RunSnoc(s, steps, t, Create(true));
    RunSnoc(s, steps + [Create(true)], t.(runner := Readying), SayReady);
    more := steps + [Create(true)] + [SayReady];
    RunSnoc(s, more, t.(runner := Running, statuses := t.statuses + [Ready]), ResetAsked);
    more := more + [ResetAsked];
  }

  lemma PileOneMore(s: Client, steps: seq<Step>, t: Client, n: nat) returns (more: seq<Step>, u: Client)
    requires Run(s, steps) == Some(t) && PiledUp(t, n) && n < 128
    ensures Run(s, more) == Some(u) && PiledUp(u, n + 1)
  {
    if t.runner.Creating? {
      more := ReadyOnceMore(s, steps, t);
      u := t.(runner := Announcing, statuses := t.statuses + [Ready]);
    } else {
      OneStatusMore(t);
      var step := if t.runner.Starting? then Begin else Announce;
      RunSnoc(s, steps, t, step);
      more, u := steps + [step], Next(t, step);
    }
  }

  /** And that many can wait: any number up to 128 does on some run. */
  lemma {:induction false} StatusesPileUp(exchanger: bool, n: nat) returns (steps: seq<Step>)
    requires n <= 128
    ensures Run(Fresh(exchanger), steps).Some? && PiledUp(Run(Fresh(exchanger), steps).value, n)
  {
    steps := [];
    if n > 0 {
      var before := StatusesPileUp(exchanger, n - 1);
      var s := Run(Fresh(exchanger), before).value;
      steps, s := PileOneMore(Fresh(exchanger), before, s, n - 1);
    }
  }

  // ------------------------------------------------------------------ that waves can get through

  lemma SentSnoc(steps: seq<Step>, step: Step)
    ensures SentBy(steps + [step]) == SentBy(steps) + if step.FromRemote? then [step.wave] else []
  {
    assert (steps + [step])[..|steps|] == steps;
  }

  lemma Onwards(exchanger: bool, steps: seq<Step>, s: Client, step: Step) returns (more: seq<Step>, t: Client)
    requires Run(Fresh(exchanger), steps) == Some(s) && Enabled(s, step)
    ensures Run(Fresh(exchanger), more) == Some(t) && t == Next(s, step)
    ensures SentBy(more) == SentBy(steps) + if step.FromRemote? then [step.wave] else []
  {
    more, t := steps + [step], Next(s, step);
    RunSnoc(Fresh(exchanger), steps, s, step);
    SentSnoc(steps, step);
  }

  /** A runner that relays to a client that has not been sent anything. */
  lemma CanConnect(exchanger: bool) returns (steps: seq<Step>, s: Client)
    ensures Run(Fresh(exchanger), steps) == Some(s) && SentBy(steps) == []
    ensures s.runner.Running? && s.relay.AwaitGreeting? && s.toClient == [] && s.history == Fresh(exchanger).history
  {
    steps, s := Onwards(exchanger, [], Fresh(exchanger), Begin);
    steps, s := Onwards(exchanger, steps, s, Announce);
    steps, s := Onwards(exchanger, steps, s, Create(true));
    steps, s := Onwards(exchanger, steps, s, SayReady);
  }

  /** A greeted client that has read all it was sent. */
  ghost predicate ReadAll(s: Client, greet: Greet) {
    && s.runner.Running? && s.relay.Passing? && s.toClient == [] && s.history.dropped == []
    && s.greet == Some(greet)
  }

  lemma Greeted(s: Client, greeting: Incoming, greet: Greet)
    requires s.runner.Running? && s.relay.AwaitGreeting? && s.toClient == [] && s.history.dropped == []
    requires greeting.Reflected? && 200 <= greeting.code < 300 && greeting.body == Greeting(greet)
    ensures Enabled(s, FromRemote(greeting)) && Enabled(Next(s, FromRemote(greeting)), ReadFirst)
    ensures ReadAll(Next(Next(s, FromRemote(greeting)), ReadFirst), greet)
  {
    assert Next(s, FromRemote(greeting)).toClient == [greeting];
  }

  lemma ReadsOneMore(s: Client, greet: Greet, wave: Incoming)
    requires ReadAll(s, greet)
    ensures Enabled(s, FromRemote(wave)) && Enabled(Next(s, FromRemote(wave)), Pass(true))
    ensures ReadAll(Next(Next(s, FromRemote(wave)), Pass(true)), greet)
  {
    assert Next(s, FromRemote(wave)).toClient == [wave];
  }

  lemma {:induction false} CanReadAll(exchanger: bool, greeting: Incoming, greet: Greet, waves: seq<Incoming>)
    returns (steps: seq<Step>, s: Client)
    requires greeting.Reflected? && 200 <= greeting.code < 300 && greeting.body == Greeting(greet)
    ensures Run(Fresh(exchanger), steps) == Some(s) && SentBy(steps) == [greeting] + waves && ReadAll(s, greet)
    decreases |waves|
  {
    var next, wave := Pass(true), greeting;
    if waves == [] {
      steps, s := CanConnect(exchanger);
      Greeted(s, greeting, greet);
      next := ReadFirst;
    } else {
      wave := waves[|waves| - 1];
      steps, s := CanReadAll(exchanger, greeting, greet, waves[..|waves| - 1]);
      ReadsOneMore(s, greet, wave);
      assert [greeting] + waves[..|waves| - 1] + [wave] == [greeting] + waves;
    }
    steps, s := Onwards(exchanger, steps, s, FromRemote(wave));
    steps, s := Onwards(exchanger, steps, s, next);
  }

  /**
   * From the start and for any greeting and any waves after it: on some run the client is greeted and all these waves
   * are handed on in order, with an exchanger those directed to the listener and the reflected ones to the exchanger.
   */
  lemma EverythingCanBeHandedOn(exchanger: bool, greeting: Incoming, greet: Greet, waves: seq<Incoming>)
    returns (steps: seq<Step>)
    requires greeting.Reflected? && 200 <= greeting.code < 300 && greeting.body == Greeting(greet)
    ensures Run(Fresh(exchanger), steps).Some? && SentBy(steps) == [greeting] + waves
    ensures var s := Run(Fresh(exchanger), steps).value;
            && s.greet == Some(greet)
            && s.listener == (if exchanger then OnlyDirected(waves) else waves)
            && s.exchanged == (if exchanger then OnlyReflected(waves) else [])
  {
    var s;
    steps, s := CanReadAll(exchanger, greeting, greet, waves);
    HandedOnAsSent(exchanger, steps);
    assert SentBy(steps)[1..|SentBy(steps)|] == waves;
  }
}
