/** Which timers are pending in which state, and what follows for silence and termination. */
module TransactionTimers {
  import opened SipMessages
  import opened Transactions
  import opened TransactionSafety

  // ---------- Timers and states ----------

  predicate Reachable(k: Kind, s: State) {
    match k
    case InviteClient => s != Confirmed
    case NonInviteClient => s in {Initial, Trying, Proceeding, Terminated}
    case InviteServer => s != Trying
    case NonInviteServer => s in {Initial, Trying, Proceeding, Completed, Terminated}
  }

  /** The timers that may be pending. */
  function Allowed(k: Kind, s: State): set<Timer> {
    match k
    case InviteClient =>
      (match s
       case Trying => {TimerA, TimerB}
       case Proceeding => {TimerB}
       case Accepted => {TimerB, TimerL}
       case Completed => {TimerB, TimerD}
       case Terminated => {TimerA, TimerB, TimerD, TimerL}
       case _ => {})
    case NonInviteClient =>
      (match s
       case Trying => {TimerE, TimerF}
       case Proceeding => {TimerF}
       case Terminated => {TimerE, TimerF}
       case _ => {})
    case InviteServer =>
      (match s
       case Accepted => {TimerL}
       case Completed => {TimerG, TimerH}
       case Confirmed => {TimerI}
       case Terminated => {TimerG, TimerH, TimerI}
       case _ => {})
    case NonInviteServer =>
      (match s
       case Completed => {TimerJ}
       case Terminated => {TimerJ}
       case _ => {})
  }

  /** The timers that must be pending unless the call that arms them is suspended. */
  function Required(k: Kind, s: State): set<Timer> {
    match (k, s)
    case (InviteClient, Trying) => {TimerA, TimerB}
    case (InviteClient, Proceeding) => {TimerB}
    case (InviteClient, Completed) => {TimerD}
    case (NonInviteClient, Trying) => {TimerE, TimerF}
    case (NonInviteClient, Proceeding) => {TimerF}
    case (InviteServer, Completed) => {TimerG}
    case (InviteServer, Confirmed) => {TimerI}
    case (NonInviteServer, Completed) => {TimerJ}
    case _ => {}
  }

  /** The timer a final response arms when its callback or send returns. */
  predicate MayFinish(k: Kind, s: State, t: Timer) {
    || (k == InviteClient && t == TimerL && s in {Accepted, Terminated})
    || (k == InviteClient && t == TimerD && s in {Completed, Terminated})
    || (k == NonInviteServer && t == TimerJ && s == Completed)
  }

  /** Only allowed timers are pending, and after cleanup only one that a final response armed late. */
  predicate Fits(tx: Tx) {
    && tx.timers.Keys <= Allowed(tx.kind, tx.state)
    && (tx.state == Terminated && tx.cleanups == 0 ==> tx.timers.Keys <= {TimerD, TimerL})
  }

  predicate TimerTable(tx: Tx) {
    && Reachable(tx.kind, tx.state)
    && Fits(tx)
    && (tx.starting ==> tx.kind.IsClient() && tx.state == Trying && tx.timers.Keys == {})
    && (tx.finishing.Some? ==> MayFinish(tx.kind, tx.state, tx.finishing.value) && tx.finishing.value !in tx.timers)
    && (!tx.starting && tx.finishing.None? ==> Required(tx.kind, tx.state) <= tx.timers.Keys)
    && (tx.cleanups > 0 ==> tx.state == Terminated)
    && (tx.state == Initial || tx.starting ==> tx.count == 0)
    && (tx.state != Initial ==> tx.request.Some?)
  }

  predicate Answers(m: Message) { m.start.Response? && m.start.status >= 100 }

  /** No response overtakes the return of the first send. */
  predicate InTurn(tx: Tx, e: Event) { e.Arrives? && tx.starting ==> !Answers(e.message) }

  lemma NewTable(id: string, k: Kind)
    ensures TimerTable(NewTx(id, k))
  {
  }

  lemma BeginTable(tx: Tx, request: Message)
    requires TimerTable(tx) && tx.state == Initial
    ensures TimerTable(Begin(tx, request))
  {
  }

  lemma ArmTable(c: Config, tx: Tx, now: real)
    requires TimerTable(tx)
    ensures tx.starting ==> TimerTable(ArmStart(c, tx, now))
    ensures tx.finishing.Some? ==> TimerTable(ArmFinish(c, tx, now))
  {
    hide Config.Duration;
  }

  lemma InviteClientTable(tx: Tx, m: Message)
    requires TimerTable(tx) && tx.kind == InviteClient && (tx.starting ==> !Answers(m))
    ensures TimerTable(InviteClientReceive(tx, m))
  {
  }

  lemma NonInviteClientTable(tx: Tx, m: Message)
    requires TimerTable(tx) && tx.kind == NonInviteClient && (tx.starting ==> !Answers(m))
    ensures TimerTable(NonInviteClientReceive(tx, m))
  {
  }

  lemma InviteServerTable(c: Config, tx: Tx, m: Message, now: real)
    requires TimerTable(tx) && tx.kind == InviteServer
    ensures TimerTable(InviteServerReceive(c, tx, m, now))
  {
    hide Config.Duration;
  }

  lemma AnswerTable(c: Config, tx: Tx, status: int, response: Message, now: real)
    requires TimerTable(tx)
    ensures TimerTable(AnswerFinal(c, tx, status, response, now)) && TimerTable(AnswerProvisional(tx, response))
  {
    hide Config.Duration;
  }

  lemma FireTable(c: Config, tx: Tx, t: Timer, now: real)
    requires TimerTable(tx) && t in tx.timers
    ensures TimerTable(Fire(c, tx, t, now))
  {
    hide Config.Backoff;
  }

  lemma StepTable(c: Config, tx: Tx, e: Event, now: real)
    requires Enabled(tx, e) && InTurn(tx, e) && TimerTable(tx)
    ensures TimerTable(Step(c, tx, e, now))
  {
    hide Config.Duration, AnswerFinal, AnswerProvisional, Fire, InviteClientReceive, NonInviteClientReceive,
         InviteServerReceive, Begin, ArmStart, ArmFinish;
    match e
    case Start(request) => BeginTable(tx, request);
    case StartReturns => ArmTable(c, tx, now);
    case FinishReturns => ArmTable(c, tx, now);
    case Arrives(m) =>
      if tx.kind == InviteClient { InviteClientTable(tx, m); }
      else if tx.kind == NonInviteClient { NonInviteClientTable(tx, m); }
      else if tx.kind == InviteServer { InviteServerTable(c, tx, m, now); }
    case AppProvisional(response) => AnswerTable(c, tx, 0, response, now);
    case AppFinal(status, response) => AnswerTable(c, tx, status, response, now);
    case Fires(t) => FireTable(c, tx, t, now);
    case CleanupRuns =>
  }

  predicate RunsInTurn(c: Config, tx: Tx, run: seq<Moment>)
    requires IsRun(c, tx, run)
    decreases |run|
  {
    run == [] || (InTurn(tx, run[0].event) && RunsInTurn(c, Step(c, tx, run[0].event, run[0].time), run[1..]))
  }

  lemma {:induction false} RunTable(c: Config, tx: Tx, run: seq<Moment>)
    requires IsRun(c, tx, run) && RunsInTurn(c, tx, run) && TimerTable(tx)
    ensures TimerTable(After(c, tx, run))
    decreases |run|
  {
    hide Step, Enabled, InTurn, TimerTable;
    if run != [] {
      StepTable(c, tx, run[0].event, run[0].time);
      RunTable(c, Step(c, tx, run[0].event, run[0].time), run[1..]);
    }
  }

  /**
   * From a new transaction, over every run in which no response overtakes the first send, the state
   * fixes the pending timers: A and E only in TRYING and G only in COMPLETED, until cleanup.
   */
  lemma TableFromStart(c: Config, id: string, k: Kind, run: seq<Moment>)
    requires IsRun(c, NewTx(id, k), run) && RunsInTurn(c, NewTx(id, k), run)
    ensures var tx := After(c, NewTx(id, k), run);
      && TimerTable(tx)
      && (TimerA in tx.timers || TimerE in tx.timers ==>
          tx.state == Trying || (tx.state == Terminated && tx.cleanups > 0))
      && (TimerG in tx.timers ==> tx.state == Completed || (tx.state == Terminated && tx.cleanups > 0))
  {
    hide IsRun, RunsInTurn, After;
    NewTable(id, k);
    RunTable(c, NewTx(id, k), run);
  }

  // ---------- A response that overtakes the first send ----------

  /** No continuation in turn has a timer pending where the table forbids it. */
  ghost predicate StaysFit(c: Config, tx: Tx) {
    forall run | IsRun(c, tx, run) && RunsInTurn(c, tx, run) :: Fits(After(c, tx, run))
  }

  lemma OneStep(c: Config, tx: Tx, e: Event, now: real) returns (run: seq<Moment>)
    requires Enabled(tx, e) && !e.Arrives?
    ensures IsRun(c, tx, run) && RunsInTurn(c, tx, run) && After(c, tx, run) == Step(c, tx, e, now)
  {
    hide Step, Enabled;
    run := [At(e, now)];
    assert run[1..] == [];
    assert IsRun(c, Step(c, tx, e, now), []);
  }

  lemma TwoSteps(c: Config, tx: Tx, first: Event, second: Event, now: real) returns (run: seq<Moment>)
    requires Enabled(tx, first) && Enabled(Step(c, tx, first, now), second) && !first.Arrives? && !second.Arrives?
    ensures IsRun(c, tx, run) && RunsInTurn(c, tx, run)
        && After(c, tx, run) == Step(c, Step(c, tx, first, now), second, now)
  {
    hide Step, Enabled;
    var middle := Step(c, tx, first, now);
    var last := OneStep(c, middle, second, now);
    run := [At(first, now)] + last;
    assert run[1..] == last && run[0] == At(first, now);
  }

  /**
   * When the start returns after an overtaking response, a retransmission timer is pending where it
   * must not be, except for a non-INVITE client that got its final response before cleanup; and
   * after cleanup for that one too.
   */
  lemma OvertakenArms(c: Config, tx: Tx, m: Message, now: real, later: real)
    requires TimerTable(tx) && tx.starting && Answers(m)
    ensures var got := Receive(c, tx, m, now);
      && (Fits(ArmStart(c, got, later)) <==> tx.kind == NonInviteClient && m.start.status >= 200)
      && (tx.kind == NonInviteClient && m.start.status >= 200 ==>
          got.cleanups > 0 && !Fits(ArmStart(c, Clean(got), later)))
  {
    hide Config.Duration, InviteServerReceive;
    var got := Receive(c, tx, m, now);
    var armed := ArmStart(c, got, later);
    var t := if tx.kind == InviteClient then TimerA else TimerE;
    assert t in armed.timers;
    if got.cleanups > 0 { assert t in ArmStart(c, Clean(got), later).timers; }
  }

  lemma OvertakenBreaks(c: Config, tx: Tx, m: Message, now: real)
    requires TimerTable(tx) && tx.starting && Answers(m)
    ensures !StaysFit(c, Receive(c, tx, m, now))
  {
    OvertakenArms(c, tx, m, now, now);
    ReceiveKeeps(c, tx, m, now);
    var got := Receive(c, tx, m, now);
    hide Receive, Fits, ArmStart, TimerTable, IsRun, RunsInTurn, After;
    if tx.kind == NonInviteClient && m.start.status >= 200 {
      var run := TwoSteps(c, got, CleanupRuns, StartReturns, now);
    } else {
      var run := OneStep(c, got, StartReturns, now);
    }
  }

  /** After a step the pending timers fit in every continuation, if and only if no response overtook the first send. */
  lemma TableExact(c: Config, tx: Tx, e: Event, now: real)
    requires Enabled(tx, e) && TimerTable(tx)
    ensures StaysFit(c, Step(c, tx, e, now)) <==> InTurn(tx, e)
  {
    if InTurn(tx, e) {
      hide Step, Enabled, InTurn;
      StepTable(c, tx, e, now);
      var next := Step(c, tx, e, now);
      forall run | IsRun(c, next, run) && RunsInTurn(c, next, run) ensures Fits(After(c, next, run)) {
        RunTable(c, next, run);
      }
    } else {
      assert Step(c, tx, e, now) == Receive(c, tx, e.message, now);
      hide Step, StaysFit, TimerTable, Receive;
      OvertakenBreaks(c, tx, e.message, now);
    }
  }

  // ---------- Silence ----------

  /** A client that will not send its request again. */
  predicate Quiet(tx: Tx) {
    && tx.kind.IsClient() && tx.state != Initial && !tx.starting
    && (forall t | t in tx.timers :: !Retransmits(t))
    && (tx.finishing.Some? ==> tx.finishing.value in {TimerL, TimerD})
  }

  lemma ReceiveQuiet(c: Config, tx: Tx, m: Message, now: real)
    requires Quiet(tx)
    ensures Quiet(Receive(c, tx, m, now))
  {
    hide Config.Duration, InviteServerReceive;
  }

  lemma StepQuiet(c: Config, tx: Tx, e: Event, now: real)
    requires Enabled(tx, e) && Quiet(tx)
    ensures Quiet(Step(c, tx, e, now)) && Requests(Step(c, tx, e, now).log) == Requests(tx.log)
  {
    hide Config.Duration, Config.Backoff, Requests, Receive;
    match e
    case Arrives(m) =>
      ReceiveQuiet(c, tx, m, now);
      ReceiveCounted(c, tx, m, now);
    case Fires(t) => Appended(tx.log, Timeout(t));
    case _ =>
  }

  lemma {:induction false} RunQuiet(c: Config, tx: Tx, run: seq<Moment>)
    requires IsRun(c, tx, run) && Quiet(tx)
    ensures Requests(After(c, tx, run).log) == Requests(tx.log)
    decreases |run|
  {
    hide Step, Enabled, Quiet, Requests;
    if run != [] {
      StepQuiet(c, tx, run[0].event, run[0].time);
      RunQuiet(c, Step(c, tx, run[0].event, run[0].time), run[1..]);
    }
  }

  ghost predicate NeverSendsAgain(c: Config, tx: Tx) {
    forall run | IsRun(c, tx, run) :: Requests(After(c, tx, run).log) == Requests(tx.log)
  }

  lemma AnsweredQuiet(c: Config, tx: Tx, m: Message, now: real)
    requires tx.kind.IsClient() && TimerTable(tx) && tx.state == Trying && Answers(m) && !tx.starting
    ensures Quiet(Receive(c, tx, m, now))
  {
    hide InviteServerReceive;
  }

  lemma FireSends(c: Config, tx: Tx, t: Timer, now: real)
    requires tx.kind.IsClient() && tx.request.Some? && tx.count < MAX_RETRANSMISSIONS && Retransmits(t)
    ensures Requests(Fire(c, tx, t, now).log) == Requests(tx.log) + 1
  {
    hide Config.Backoff, Requests;
    Appended(tx.log, Timeout(t));
    Appended(tx.log + [Timeout(t)], SendRequest(tx.request.value));
  }

  lemma ReceiveKeeps(c: Config, tx: Tx, m: Message, now: real)
    ensures var end := Receive(c, tx, m, now);
      end.starting == tx.starting && end.kind == tx.kind && end.count == tx.count && end.request == tx.request
  {
    hide Config.Duration;
  }

  lemma OvertakenResends(c: Config, tx: Tx, m: Message, now: real)
    requires tx.kind.IsClient() && tx.request.Some? && tx.starting && tx.count < MAX_RETRANSMISSIONS
    ensures !NeverSendsAgain(c, Receive(c, tx, m, now))
  {
    ReceiveKeeps(c, tx, m, now);
    hide Receive, Config.Duration, Config.Backoff, Requests;
    var answered := Receive(c, tx, m, now);
    var t := if tx.kind == InviteClient then TimerA else TimerE;
    var armed := ArmStart(c, answered, now);
    assert Step(c, answered, StartReturns, now) == armed && t in armed.timers;
    var run := TwoSteps(c, answered, StartReturns, Fires(t), now);
    FireSends(c, armed, t, now);
  }

  /**
   * Once a client has processed its first response of status 100 or more, its request is never
   * sent again, if and only if the first send had returned by then.
   */
  lemma SilentAfterResponse(c: Config, tx: Tx, m: Message, now: real)
    requires tx.kind.IsClient() && TimerTable(tx) && tx.state == Trying && Answers(m)
    ensures NeverSendsAgain(c, Receive(c, tx, m, now)) <==> !tx.starting
  {
    hide Receive, Requests;
    if tx.starting {
      OvertakenResends(c, tx, m, now);
    } else {
      AnsweredQuiet(c, tx, m, now);
      var answered := Receive(c, tx, m, now);
      forall run | IsRun(c, answered, run) ensures Requests(After(c, answered, run).log) == Requests(answered.log) {
        RunQuiet(c, answered, run);
      }
    }
  }

  /** A confirmed INVITE server: no retransmission timer, nothing left to answer. */
  predicate Hushed(tx: Tx) {
    && tx.kind == InviteServer && tx.state in {Confirmed, Terminated}
    && !tx.starting && tx.finishing.None?
    && (forall t | t in tx.timers :: !Retransmits(t))
  }

  lemma StepHushed(c: Config, tx: Tx, e: Event, now: real)
    requires Enabled(tx, e) && Hushed(tx)
    ensures Hushed(Step(c, tx, e, now)) && Sends(Step(c, tx, e, now).log) == Sends(tx.log)
  {
    hide Config.Duration, Config.Backoff, Sends;
    if e.Fires? { Appended(tx.log, Timeout(e.timer)); }
  }

  /** Once an INVITE server transaction is CONFIRMED it sends nothing more, in any continuation. */
  lemma {:induction false} ConfirmedSilent(c: Config, tx: Tx, run: seq<Moment>)
    requires IsRun(c, tx, run) && (Hushed(tx) || (tx.kind == InviteServer && tx.state == Confirmed && TimerTable(tx)))
    ensures Sends(After(c, tx, run).log) == Sends(tx.log)
    decreases |run|
  {
    assert Hushed(tx);
    hide Step, Enabled, Hushed, Sends, TimerTable;
    if run != [] {
      StepHushed(c, tx, run[0].event, run[0].time);
      ConfirmedSilent(c, Step(c, tx, run[0].event, run[0].time), run[1..]);
    }
  }

  /** A terminated transaction with nothing left that could send. */
  predicate Spent(tx: Tx) {
    && tx.state == Terminated && !tx.starting
    && (forall t | t in tx.timers :: !Retransmits(t))
    && (tx.finishing.Some? ==> !Retransmits(tx.finishing.value))
  }

  lemma StepSpent(c: Config, tx: Tx, e: Event, now: real)
    requires Enabled(tx, e) && Spent(tx)
    ensures Spent(Step(c, tx, e, now)) && Sends(Step(c, tx, e, now).log) == Sends(tx.log)
  {
    hide Config.Duration, Config.Backoff, Sends;
    if e.Fires? { Appended(tx.log, Timeout(e.timer)); }
  }

  /** Once a transaction is cleaned up it sends nothing more, in any continuation. */
  lemma {:induction false} CleanedUpSilent(c: Config, tx: Tx, run: seq<Moment>)
    requires IsRun(c, tx, run)
    requires Spent(tx) || (TimerTable(tx) && tx.state == Terminated && tx.cleanups == 0)
    ensures Sends(After(c, tx, run).log) == Sends(tx.log)
    decreases |run|
  {
    assert Spent(tx);
    hide Step, Enabled, Spent, Sends, TimerTable;
    if run != [] {
      StepSpent(c, tx, run[0].event, run[0].time);
      CleanedUpSilent(c, Step(c, tx, run[0].event, run[0].time), run[1..]);
    }
  }

  // ---------- Termination by timers alone ----------

  predicate Decisive(t: Timer) { Ends(t) || Retransmits(t) }

  /** Some pending timer can still bring the transaction to its end. */
  predicate Ending(tx: Tx) { exists t | t in tx.timers :: Decisive(t) }

  function Fuel(tx: Tx): nat {
    (if tx.count < MAX_RETRANSMISSIONS then MAX_RETRANSMISSIONS - tx.count else 0) + |tx.timers|
  }

  lemma DisarmFewer(tx: Tx, t: Timer)
    requires t in tx.timers
    ensures |Disarm(tx, t).timers| == |tx.timers| - 1
  {
    assert Disarm(tx, t).timers.Keys == tx.timers.Keys - {t};
    assert |Disarm(tx, t).timers| == |Disarm(tx, t).timers.Keys|;
    assert |tx.timers| == |tx.timers.Keys|;
  }

  lemma RearmSame(tx: Tx, t: Timer, deadline: real)
    requires t in tx.timers
    ensures |Disarm(tx, t).timers[t := deadline]| == |tx.timers|
  {
    assert Disarm(tx, t).timers[t := deadline].Keys == tx.timers.Keys;
    assert |Disarm(tx, t).timers[t := deadline]| == |Disarm(tx, t).timers[t := deadline].Keys|;
    assert |tx.timers| == |tx.timers.Keys|;
  }

  lemma FireEnding(c: Config, tx: Tx, t: Timer, now: real)
    requires Ending(tx) && t in tx.timers
    ensures var end := Fire(c, tx, t, now); end.state == Terminated || (Ending(end) && Fuel(end) < Fuel(tx))
  {
    hide Config.Backoff;
    var end := Fire(c, tx, t, now);
    if Ends(t) || (Retransmits(t) && tx.count >= MAX_RETRANSMISSIONS) {
    } else if Retransmits(t) {
      assert t in end.timers && Decisive(t);
      RearmSame(tx, t, now + c.Backoff(tx.count + 1));
    } else {
      var u :| u in tx.timers && Decisive(u);
      assert u in end.timers;
      DisarmFewer(tx, t);
    }
  }

  lemma FireStep(c: Config, tx: Tx, m: Moment)
    requires Enabled(tx, m.event) && m.event.Fires?
    ensures m.event.timer in tx.timers && Step(c, tx, m.event, m.time) == Fire(c, tx, m.event.timer, m.time)
  {
    hide Fire;
  }

  predicate FiresOnly(run: seq<Moment>) { forall i | 0 <= i < |run| :: run[i].event.Fires? }

  /** With a decisive timer pending, timers alone lead to TERMINATED: no such run gets stuck or goes on. */
  lemma {:induction false} TimersTerminate(c: Config, tx: Tx, run: seq<Moment>)
    requires IsRun(c, tx, run) && FiresOnly(run) && (Ending(tx) || tx.state == Terminated)
    ensures var end := After(c, tx, run);
      end.state == Terminated || (tx.state != Terminated && Ending(end) && |run| + Fuel(end) <= Fuel(tx))
    decreases |run|
  {
    hide Step, Ending, Fuel, Fire, Enabled;
    if run != [] {
      var t, now := run[0].event.timer, run[0].time;
      var next := Step(c, tx, run[0].event, now);
      assert FiresOnly(run[1..]);
      FireStep(c, tx, run[0]);
      if tx.state == Terminated { FireOrderly(c, tx, t, now); } else { FireEnding(c, tx, t, now); }
      TimersTerminate(c, next, run[1..]);
    }
  }

  /** Without one, timers alone change nothing. */
  lemma {:induction false} TimersIdle(c: Config, tx: Tx, run: seq<Moment>)
    requires IsRun(c, tx, run) && FiresOnly(run) && !Ending(tx)
    ensures After(c, tx, run).state == tx.state
    decreases |run|
  {
    if run != [] {
      var t := run[0].event.timer;
      var next := Step(c, tx, run[0].event, run[0].time);
      assert !Decisive(t);
      assert next.state == tx.state && !Ending(next);
      assert FiresOnly(run[1..]);
      hide Step, Ending;
      TimersIdle(c, next, run[1..]);
    }
  }

  /** Whenever the table holds, these states have a decisive timer pending. */
  lemma EndingStates(tx: Tx)
    requires TimerTable(tx) && !tx.starting && tx.finishing.None?
    requires (tx.kind.IsClient() && tx.state in {Trying, Proceeding}) || tx.state in {Completed, Confirmed}
    ensures Ending(tx)
  {
    assert Required(tx.kind, tx.state) <= tx.timers.Keys;
    var t :| t in Required(tx.kind, tx.state);
    assert t in tx.timers && Decisive(t);
  }

  lemma TimersReach(c: Config, tx: Tx, t: Timer, now: real) returns (run: seq<Moment>)
    requires t in tx.timers && Decisive(t)
    ensures IsRun(c, tx, run) && FiresOnly(run) && After(c, tx, run).state == Terminated
    decreases MAX_RETRANSMISSIONS - tx.count
  {
    hide Config.Backoff;
    var m := At(Fires(t), now);
    var next := Fire(c, tx, t, now);
    if next.state == Terminated {
      run := [m];
      assert run[1..] == [];
      assert IsRun(c, next, []);
    } else {
      var rest := TimersReach(c, next, t, now);
      run := [m] + rest;
      assert run[1..] == rest;
    }
  }

  /** Timers alone can end a transaction if and only if one of A, B, D, E, F, G, I, J, K is pending. */
  lemma TimersAloneExact(c: Config, tx: Tx)
    requires tx.state != Terminated
    ensures (exists run :: IsRun(c, tx, run) && FiresOnly(run) && After(c, tx, run).state == Terminated) <==> Ending(tx)
  {
    hide Step, Enabled;
    if Ending(tx) {
      var t :| t in tx.timers && Decisive(t);
      var run := TimersReach(c, tx, t, 0.0);
      assert IsRun(c, tx, run) && FiresOnly(run) && After(c, tx, run).state == Terminated;
    } else {
      forall run | IsRun(c, tx, run) && FiresOnly(run) ensures After(c, tx, run).state != Terminated {
        TimersIdle(c, tx, run);
      }
    }
  }
}
