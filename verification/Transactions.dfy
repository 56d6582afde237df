/**
 * The four SIP transaction kinds (tinysip/fsm.py) as a step system and as the object that performs
 * the steps. A step ends where the source may suspend: after a send or an application callback.
 * What the source still has to do after such a point is kept in `starting` and `finishing`.
 */
module Transactions {
  import opened Text
  import opened SipMessages

  datatype State = Initial | Trying | Proceeding | Completed | Accepted | Confirmed | Terminated

  datatype Kind = InviteClient | InviteServer | NonInviteClient | NonInviteServer {
    predicate IsClient() { this == InviteClient || this == NonInviteClient }
  }

  datatype Timer =
    TimerA | TimerB | TimerD | TimerE | TimerF | TimerG | TimerH | TimerI | TimerJ | TimerK | TimerL | TimerM

  /** The timer values of RFC 3261; `TIMER_D` is 32 seconds whatever they are. */
  datatype Config = Config(T1: real, T2: real, T4: real) {
    function Duration(t: Timer): real {
      match t
      case TimerA | TimerE | TimerG => T1
      case TimerB | TimerF | TimerH | TimerJ | TimerL | TimerM => 64.0 * T1
      case TimerI | TimerK => T4
      case TimerD => 32.0
    }

    /** The pause after the k-th retransmission. */
    function Backoff(k: nat): real {
      var wait := Pow2(k) as real * T1;
      if wait < T2 then wait else T2
    }
  }

  function Pow2(k: nat): nat { if k == 0 then 1 else 2 * Pow2(k - 1) }

  const MAX_RETRANSMISSIONS: nat := 7

  /** What a transaction does to the outside: sends and application callbacks. */
  datatype Output =
    | SendRequest(message: Message)
    | SendResponse(message: Message)
    | Provisional(message: Message)
    | Final(message: Message)
    | RequestReceived(message: Message)
    | Timeout(timer: Timer)

  /**
   * `timers` holds the deadline of every timer that is still pending. `starting` says that the
   * first send has not returned, so the timers of `start` are not armed yet; `finishing` names
   * the timer that the final response arms once its callback or send returns. `cleanups` counts
   * the cleanup tasks that were created and have not run.
   */
  datatype Tx = Tx(
    id: string, kind: Kind, state: State, request: Option<Message>, response: Option<Message>, count: nat,
    timers: map<Timer, real>, starting: bool, finishing: Option<Timer>, cleanups: nat, log: seq<Output>)

  function NewTx(id: string, kind: Kind): Tx {
    Tx(id, kind, Initial, None, None, 0, map[], false, None, 0, [])
  }

  // ---------- Elementary changes ----------

  function To(tx: Tx, s: State): Tx {
    tx.(state := s, cleanups := if s == Terminated then tx.cleanups + 1 else tx.cleanups)
  }

  function Arm(tx: Tx, t: Timer, deadline: real): Tx { tx.(timers := tx.timers[t := deadline]) }

  function Disarm(tx: Tx, t: Timer): Tx { tx.(timers := tx.timers - {t}) }

  function Emit(tx: Tx, o: Output): Tx { tx.(log := tx.log + [o]) }

  // ---------- Starting ----------

  function Begin(tx: Tx, request: Message): Tx {
    var tx := tx.(request := Some(request));
    match tx.kind
    case InviteClient | NonInviteClient => Emit(To(tx, Trying), SendRequest(request)).(starting := true)
    case InviteServer => Emit(To(tx, Proceeding), RequestReceived(request))
    case NonInviteServer => Emit(To(tx, Trying), RequestReceived(request))
  }

  /** The first send of a client has returned. */
  function ArmStart(c: Config, tx: Tx, now: real): Tx {
    var retransmit := if tx.kind == InviteClient then TimerA else TimerE;
    var timeout := if tx.kind == InviteClient then TimerB else TimerF;
    Arm(Arm(tx, retransmit, now + c.Duration(retransmit)), timeout, now + c.Duration(timeout)).(starting := false)
  }

  // ---------- Messages from the network ----------

  function InviteClientReceive(tx: Tx, m: Message): Tx {
    if !m.start.Response? then tx
    else
      var status := m.start.status;
      if tx.state == Trying then
        if 100 <= status <= 199 then Emit(Disarm(To(tx, Proceeding), TimerA), Provisional(m))
        else if 200 <= status <= 299 then
          Emit(Disarm(Disarm(To(tx, Accepted), TimerA), TimerB), Final(m)).(finishing := Some(TimerL))
        else if status >= 300 then
          Emit(Disarm(Disarm(To(tx, Completed), TimerA), TimerB), Final(m)).(finishing := Some(TimerD))
        else tx
      else if tx.state == Proceeding then
        if 200 <= status <= 299 then Emit(To(tx, Accepted), Final(m)).(finishing := Some(TimerL))
        else if status >= 300 then Emit(To(tx, Completed), Final(m)).(finishing := Some(TimerD))
        else Emit(tx, Provisional(m))
      else tx
  }

  function NonInviteClientReceive(tx: Tx, m: Message): Tx {
    if !m.start.Response? then tx
    else
      var status := m.start.status;
      if tx.state == Trying then
        if 100 <= status <= 199 then Emit(Disarm(To(tx, Proceeding), TimerE), Provisional(m))
        else if status >= 200 then Emit(Disarm(Disarm(To(tx, Terminated), TimerE), TimerF), Final(m))
        else tx
      else if tx.state == Proceeding then
        if status >= 200 then Emit(To(tx, Terminated), Final(m)) else Emit(tx, Provisional(m))
      else tx
  }

  function Resend(tx: Tx): Tx {
    if tx.response.Some? then Emit(tx, SendResponse(tx.response.value)) else tx
  }

  function InviteServerReceive(c: Config, tx: Tx, m: Message, now: real): Tx {
    if !m.start.Request? then tx
    else if m.start.verb == ACK then
      if tx.state == Accepted then
        Arm(Disarm(To(tx, Confirmed), TimerL), TimerI, now + c.Duration(TimerI))
      else if tx.state == Completed then
        Arm(Disarm(Disarm(To(tx, Confirmed), TimerG), TimerH), TimerI, now + c.Duration(TimerI))
      else tx
    else if tx.state == Proceeding then Resend(tx)
    else tx
  }

  function Receive(c: Config, tx: Tx, m: Message, now: real): Tx {
    match tx.kind
    case InviteClient => InviteClientReceive(tx, m)
    case NonInviteClient => NonInviteClientReceive(tx, m)
    case InviteServer => InviteServerReceive(c, tx, m, now)
    case NonInviteServer => if tx.state == Completed then Resend(tx) else tx
  }

  // ---------- Responses from the application ----------

  function Respond(tx: Tx, response: Message): Tx { Emit(tx.(response := Some(response)), SendResponse(response)) }

  function AnswerProvisional(tx: Tx, response: Message): Tx {
    match tx.kind
    case InviteServer => if tx.state != Proceeding then tx else Respond(tx, response)
    case NonInviteServer => if tx.state != Trying then tx else Respond(To(tx, Proceeding), response)
    case _ => tx
  }

  function InviteServerFinal(c: Config, tx: Tx, status: int, response: Message, now: real): Tx {
    if tx.state != Proceeding then tx
    else if 200 <= status <= 299 then Respond(Arm(To(tx, Accepted), TimerL, now + c.Duration(TimerL)), response)
    else
      Respond(Arm(Arm(To(tx, Completed), TimerH, now + c.Duration(TimerH)), TimerG, now + c.Duration(TimerG)), response)
  }

  function AnswerFinal(c: Config, tx: Tx, status: int, response: Message, now: real): Tx {
    match tx.kind
    case InviteServer => InviteServerFinal(c, tx, status, response, now)
    case NonInviteServer =>
      if tx.state != Trying && tx.state != Proceeding then tx
      else Respond(To(tx, Completed), response).(finishing := Some(TimerJ))
    case _ => tx
  }

  /** The callback or send of the final response has returned. */
  function ArmFinish(c: Config, tx: Tx, now: real): Tx
    requires tx.finishing.Some?
  {
    Arm(tx, tx.finishing.value, now + c.Duration(tx.finishing.value)).(finishing := None)
  }

  // ---------- Timers ----------

  predicate Ends(t: Timer) { t in {TimerB, TimerF, TimerD, TimerI, TimerJ, TimerK} }

  predicate Retransmits(t: Timer) { t in {TimerA, TimerE, TimerG} }

  function Retransmit(c: Config, tx: Tx, t: Timer, now: real): Tx {
    if tx.count >= MAX_RETRANSMISSIONS then To(tx, Terminated)
    else
      var again := tx.(count := tx.count + 1);
      var sent :=
        if tx.kind.IsClient() then (if tx.request.Some? then Emit(again, SendRequest(tx.request.value)) else again)
        else Resend(again);
      Arm(sent, t, now + c.Backoff(again.count))
  }

  /** Timers H, L and M report their timeout and do nothing else. */
  function Fire(c: Config, tx: Tx, t: Timer, now: real): Tx {
    var told := Emit(Disarm(tx, t), Timeout(t));
    if Ends(t) then To(told, Terminated)
    else if Retransmits(t) then Retransmit(c, told, t, now)
    else told
  }

  function Clean(tx: Tx): Tx
    requires tx.cleanups > 0
  {
    tx.(timers := map[], cleanups := tx.cleanups - 1)
  }

  // ---------- Runs ----------

  datatype Event =
    | Start(request: Message)
    | StartReturns
    | Arrives(message: Message)
    | AppProvisional(response: Message)
    | AppFinal(status: int, response: Message)
    | FinishReturns
    | Fires(timer: Timer)
    | CleanupRuns

  predicate Enabled(tx: Tx, e: Event) {
    match e
    case Start(_) => tx.state == Initial
    case StartReturns => tx.starting
    case FinishReturns => tx.finishing.Some?
    case Fires(t) => t in tx.timers
    case CleanupRuns => tx.cleanups > 0
    case _ => true
  }

  function Step(c: Config, tx: Tx, e: Event, now: real): Tx
    requires Enabled(tx, e)
  {
    match e
    case Start(request) => Begin(tx, request)
    case StartReturns => ArmStart(c, tx, now)
    case Arrives(m) => Receive(c, tx, m, now)
    case AppProvisional(response) => AnswerProvisional(tx, response)
    case AppFinal(status, response) => AnswerFinal(c, tx, status, response, now)
    case FinishReturns => ArmFinish(c, tx, now)
    case Fires(t) => Fire(c, tx, t, now)
    case CleanupRuns => Clean(tx)
  }

  datatype Moment = At(event: Event, time: real)

  predicate IsRun(c: Config, tx: Tx, run: seq<Moment>)
    decreases |run|
  {
    run == [] || (Enabled(tx, run[0].event) && IsRun(c, Step(c, tx, run[0].event, run[0].time), run[1..]))
  }

  function After(c: Config, tx: Tx, run: seq<Moment>): Tx
    requires IsRun(c, tx, run)
    decreases |run|
  {
    if run == [] then tx else After(c, Step(c, tx, run[0].event, run[0].time), run[1..])
  }

  // ---------- The transaction object ----------

  class SipTransaction {
    const id: string
    const kind: Kind
    const config: Config
    var state: State
    var request: Option<Message>
    var response: Option<Message>
    var retransmissionCount: nat
    var activeTimers: map<Timer, real>
    var starting: bool
    var finishing: Option<Timer>
    var cleanups: nat
    var log: seq<Output>

    ghost function View(): Tx
      reads this
    {
      Tx(id, kind, state, request, response, retransmissionCount, activeTimers, starting, finishing, cleanups, log)
    }

    constructor (id: string, kind: Kind, config: Config)
      ensures View() == NewTx(id, kind) && this.config == config
    {
      this.id, this.kind, this.config := id, kind, config;
      state, request, response, retransmissionCount := Initial, None, None, 0;
      activeTimers, starting, finishing, cleanups, log := map[], false, None, 0, [];
    }

    method TransitionTo(newState: State)
      modifies this
      ensures View() == To(old(View()), newState)
    {
      state := newState;
      if newState == Terminated { cleanups := cleanups + 1; }
    }

    /** Starting a timer that is pending replaces it. */
    method StartTimer(t: Timer, duration: real, now: real)
      modifies this
      ensures View() == Arm(old(View()), t, now + duration)
    {
      activeTimers := activeTimers[t := now + duration];
    }

    method CancelTimer(t: Timer)
      modifies this
      ensures View() == Disarm(old(View()), t)
    {
      activeTimers := activeTimers - {t};
    }

    method Output(o: Output)
      modifies this
      ensures View() == Emit(old(View()), o)
    {
      log := log + [o];
    }

    method Start(message: Message)
      modifies this
      ensures View() == Begin(old(View()), message)
    {
      request := Some(message);
      match kind {
        case InviteClient | NonInviteClient =>
          TransitionTo(Trying);
          Output(SendRequest(message));
          starting := true;
        case InviteServer =>
          TransitionTo(Proceeding);
          Output(RequestReceived(message));
        case NonInviteServer =>
          TransitionTo(Trying);
          Output(RequestReceived(message));
      }
    }

    method StartReturned(now: real)
      modifies this
      ensures View() == ArmStart(config, old(View()), now)
    {
      if kind == InviteClient {
        StartTimer(TimerA, config.Duration(TimerA), now);
        StartTimer(TimerB, config.Duration(TimerB), now);
      } else {
        StartTimer(TimerE, config.Duration(TimerE), now);
        StartTimer(TimerF, config.Duration(TimerF), now);
      }
      starting := false;
    }

    method ProcessInviteResponse(m: Message)
      modifies this
      ensures View() == InviteClientReceive(old(View()), m)
    {
      if !m.start.Response? { return; }
      var status := m.start.status;
      if state == Trying {
        if 100 <= status <= 199 {
          TransitionTo(Proceeding);
          CancelTimer(TimerA);
          Output(Provisional(m));
        } else if 200 <= status <= 299 {
          TransitionTo(Accepted);
          CancelTimer(TimerA);
          CancelTimer(TimerB);
          Output(Final(m));
          finishing := Some(TimerL);
        } else if status >= 300 {
          TransitionTo(Completed);
          CancelTimer(TimerA);
          CancelTimer(TimerB);
          Output(Final(m));
          finishing := Some(TimerD);
        }
      } else if state == Proceeding {
        if 200 <= status <= 299 {
          TransitionTo(Accepted);
          Output(Final(m));
          finishing := Some(TimerL);
        } else if status >= 300 {
          TransitionTo(Completed);
          Output(Final(m));
          finishing := Some(TimerD);
        } else {
          Output(Provisional(m));
        }
      }
    }

    method ProcessNonInviteResponse(m: Message)
      modifies this
      ensures View() == NonInviteClientReceive(old(View()), m)
    {
      if !m.start.Response? { return; }
      var status := m.start.status;
      if state == Trying {
        if 100 <= status <= 199 {
          TransitionTo(Proceeding);
          CancelTimer(TimerE);
          Output(Provisional(m));
        } else if status >= 200 {
          TransitionTo(Terminated);
          CancelTimer(TimerE);
          CancelTimer(TimerF);
          Output(Final(m));
        }
      } else if state == Proceeding {
        if status >= 200 {
          TransitionTo(Terminated);
          Output(Final(m));
        } else {
          Output(Provisional(m));
        }
      }
    }

    method ProcessInviteRequest(m: Message, now: real)
      modifies this
      ensures View() == InviteServerReceive(config, old(View()), m, now)
    {
      if !m.start.Request? { return; }
      if m.start.verb == ACK {
        if state == Accepted {
          TransitionTo(Confirmed);
          CancelTimer(TimerL);
          StartTimer(TimerI, config.Duration(TimerI), now);
        } else if state == Completed {
          TransitionTo(Confirmed);
          CancelTimer(TimerG);
          CancelTimer(TimerH);
          StartTimer(TimerI, config.Duration(TimerI), now);
        }
      } else if state == Proceeding && response.Some? {
        Output(SendResponse(response.value));
      }
    }

    method ProcessMessage(m: Message, now: real)
      modifies this
      ensures View() == Receive(config, old(View()), m, now)
    {
      match kind {
        case InviteClient => ProcessInviteResponse(m);
        case NonInviteClient => ProcessNonInviteResponse(m);
        case InviteServer => ProcessInviteRequest(m, now);
        case NonInviteServer =>
          if state == Completed && response.Some? { Output(SendResponse(response.value)); }
      }
    }

    method SendProvisionalResponse(r: Message)
      requires !kind.IsClient()
      modifies this
      ensures View() == AnswerProvisional(old(View()), r)
    {
      if kind == InviteServer {
        if state != Proceeding { return; }
      } else {
        if state != Trying { return; }
        TransitionTo(Proceeding);
      }
      response := Some(r);
      Output(SendResponse(r));
    }

    method SendInviteFinal(status: int, r: Message, now: real)
      modifies this
      ensures View() == InviteServerFinal(config, old(View()), status, r, now)
    {
      hide Config.Duration;
      if state != Proceeding { return; }
      if 200 <= status <= 299 {
        TransitionTo(Accepted);
        StartTimer(TimerL, config.Duration(TimerL), now);
      } else {
        TransitionTo(Completed);
        StartTimer(TimerH, config.Duration(TimerH), now);
        StartTimer(TimerG, config.Duration(TimerG), now);
      }
      response := Some(r);
      Output(SendResponse(r));
    }

    method SendFinalResponse(status: int, r: Message, now: real)
      requires !kind.IsClient()
      modifies this
      ensures View() == AnswerFinal(config, old(View()), status, r, now)
    {
      if kind == InviteServer {
        SendInviteFinal(status, r, now);
      } else {
        if state != Trying && state != Proceeding { return; }
        TransitionTo(Completed);
        response := Some(r);
        Output(SendResponse(r));
        finishing := Some(TimerJ);
      }
    }

    method FinishReturned(now: real)
      requires finishing.Some?
      modifies this
      ensures View() == ArmFinish(config, old(View()), now)
    {
      StartTimer(finishing.value, config.Duration(finishing.value), now);
      finishing := None;
    }

    method HandleRetransmission(t: Timer, now: real)
      modifies this
      ensures View() == Retransmit(config, old(View()), t, now)
    {
      if retransmissionCount >= MAX_RETRANSMISSIONS {
        TransitionTo(Terminated);
        return;
      }
      retransmissionCount := retransmissionCount + 1;
      if kind.IsClient() {
        if request.Some? { Output(SendRequest(request.value)); }
      } else {
        if response.Some? { Output(SendResponse(response.value)); }
      }
      StartTimer(t, config.Backoff(retransmissionCount), now);
    }

    method OnTimerFired(t: Timer, now: real)
      modifies this
      ensures View() == Fire(config, old(View()), t, now)
    {
      CancelTimer(t);
      Output(Timeout(t));
      if Ends(t) {
        TransitionTo(Terminated);
      } else if Retransmits(t) {
        HandleRetransmission(t, now);
      }
    }

    method Cleanup()
      requires cleanups > 0
      modifies this
      ensures View() == Clean(old(View()))
    {
      activeTimers := map[];
      cleanups := cleanups - 1;
    }
  }
}
