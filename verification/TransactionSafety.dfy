/** What every run of a transaction keeps: state order, reports to the application, sends. */
module TransactionSafety {
  import opened Text
  import opened SipMessages
  import opened Transactions

  function Rank(s: State): nat {
    match s
    case Initial => 0
    case Trying => 1
    case Proceeding => 2
    case Accepted => 3
    case Completed => 3
    case Confirmed => 4
    case Terminated => 5
  }

  predicate Reports(o: Output) { o.Final? || o.Provisional? }

  // ---------- One step ----------

  /** The state goes up in rank or stays; a report is made only before any final response. */
  predicate Orderly(tx: Tx, end: Tx) {
    && end.id == tx.id && end.kind == tx.kind
    && (end.state == tx.state || Rank(tx.state) < Rank(end.state))
    && Extends(tx, end)
  }

  predicate Extends(tx: Tx, end: Tx) {
    var n := |tx.log|;
    && tx.log <= end.log
    && (|end.log| == n || |end.log| == n + 1 || (|end.log| == n + 2 && end.log[n].Timeout? && !Reports(end.log[n + 1])))
    && (|end.log| == n + 1 && Reports(end.log[n]) ==>
          && 1 <= Rank(tx.state) <= 2
          && (end.log[n].Final? ==> Rank(end.state) >= 3))
  }

  lemma ReceiveOrderly(c: Config, tx: Tx, m: Message, now: real)
    ensures Orderly(tx, Receive(c, tx, m, now))
  {
    hide Config.Duration;
    match tx.kind
    case InviteClient => InviteClientOrderly(tx, m);
    case NonInviteClient => NonInviteClientOrderly(tx, m);
    case InviteServer => hide InviteClientReceive, NonInviteClientReceive;
    case NonInviteServer => hide InviteClientReceive, NonInviteClientReceive, InviteServerReceive;
  }

  lemma InviteClientOrderly(tx: Tx, m: Message)
    ensures Orderly(tx, InviteClientReceive(tx, m))
  {
  }

  lemma NonInviteClientOrderly(tx: Tx, m: Message)
    ensures Orderly(tx, NonInviteClientReceive(tx, m))
  {
  }

  lemma AnswerOrderly(c: Config, tx: Tx, status: int, response: Message, now: real)
    ensures Orderly(tx, AnswerFinal(c, tx, status, response, now)) && Orderly(tx, AnswerProvisional(tx, response))
  {
    hide Config.Duration;
  }

  lemma FireOrderly(c: Config, tx: Tx, t: Timer, now: real)
    ensures Orderly(tx, Fire(c, tx, t, now))
  {
    hide Config.Backoff;
  }

  lemma StepOrderly(c: Config, tx: Tx, e: Event, now: real)
    requires Enabled(tx, e)
    ensures Orderly(tx, Step(c, tx, e, now))
  {
    hide Config.Duration, Receive, AnswerFinal, AnswerProvisional, Fire;
    match e
    case Arrives(m) => ReceiveOrderly(c, tx, m, now);
    case AppProvisional(response) => AnswerOrderly(c, tx, 0, response, now);
    case AppFinal(status, response) => AnswerOrderly(c, tx, status, response, now);
    case Fires(t) => FireOrderly(c, tx, t, now);
    case _ =>
  }

  // ---------- State order ----------

  /** No run lowers the rank or swaps two states of one rank, so TERMINATED is absorbing. */
  lemma {:induction false} RunRank(c: Config, tx: Tx, run: seq<Moment>)
    requires IsRun(c, tx, run)
    ensures var end := After(c, tx, run);
      && (end.state == tx.state || Rank(tx.state) < Rank(end.state))
      && (tx.state == Terminated ==> end.state == Terminated)
      && end.kind == tx.kind && end.id == tx.id
    decreases |run|
  {
    hide Step, Enabled, Extends;
    if run != [] {
      StepOrderly(c, tx, run[0].event, run[0].time);
      RunRank(c, Step(c, tx, run[0].event, run[0].time), run[1..]);
    }
  }

  // ---------- Reports to the application ----------

  /** Nothing is reported after a final response, and only a settled state has reported one. */
  predicate ReportsOnce(tx: Tx) {
    && (forall i | 0 <= i < |tx.log| :: tx.log[i].Final? ==> Rank(tx.state) >= 3)
    && (forall i, j | 0 <= i < j < |tx.log| :: tx.log[i].Final? ==> !Reports(tx.log[j]))
  }

  lemma StepReportsOnce(c: Config, tx: Tx, e: Event, now: real)
    requires Enabled(tx, e) && ReportsOnce(tx)
    ensures ReportsOnce(Step(c, tx, e, now))
  {
    hide Step, Enabled;
    StepOrderly(c, tx, e, now);
    var end, n := Step(c, tx, e, now), |tx.log|;
    forall i | 0 <= i < |end.log| && end.log[i].Final? ensures Rank(end.state) >= 3 {
      if i < n { assert end.log[i] == tx.log[i]; }
    }
    forall i, j | 0 <= i < j < |end.log| && end.log[i].Final? ensures !Reports(end.log[j]) {
      if i < n {
        assert end.log[i] == tx.log[i];
        if j < n { assert end.log[j] == tx.log[j]; }
      }
    }
  }

  /** Over every run a transaction reports at most one final response, and nothing after it. */
  lemma {:induction false} RunReportsOnce(c: Config, tx: Tx, run: seq<Moment>)
    requires IsRun(c, tx, run) && ReportsOnce(tx)
    ensures ReportsOnce(After(c, tx, run))
    decreases |run|
  {
    hide Step, Enabled, ReportsOnce;
    if run != [] {
      StepReportsOnce(c, tx, run[0].event, run[0].time);
      RunReportsOnce(c, Step(c, tx, run[0].event, run[0].time), run[1..]);
    }
  }

  // ---------- Sends ----------

  function Requests(log: seq<Output>): nat {
    if log == [] then 0
    else Requests(log[..|log| - 1]) + if log[|log| - 1].SendRequest? then 1 else 0
  }

  function Sends(log: seq<Output>): nat {
    if log == [] then 0
    else Sends(log[..|log| - 1]) + if log[|log| - 1].SendRequest? || log[|log| - 1].SendResponse? then 1 else 0
  }

  lemma Appended(log: seq<Output>, o: Output)
    ensures Requests(log + [o]) == Requests(log) + if o.SendRequest? then 1 else 0
    ensures Sends(log + [o]) == Sends(log) + if o.SendRequest? || o.SendResponse? then 1 else 0
  {
    assert (log + [o])[..|log|] == log;
  }

  /** What a step sends: a request only when starting or retransmitting, and then it is counted. */
  predicate Counted(tx: Tx, end: Tx) {
    var sent := Requests(end.log) - Requests(tx.log);
    && (tx.count <= MAX_RETRANSMISSIONS ==> end.count <= MAX_RETRANSMISSIONS)
    && sent <= (end.count - tx.count) + (if tx.state == Initial && end.state != Initial then 1 else 0)
    && (end.count == tx.count || end.count == tx.count + 1)
  }

  lemma FireCounted(c: Config, tx: Tx, t: Timer, now: real)
    ensures Counted(tx, Fire(c, tx, t, now))
    ensures !Retransmits(t) || tx.count >= MAX_RETRANSMISSIONS ==> Sends(Fire(c, tx, t, now).log) == Sends(tx.log)
    ensures !tx.kind.IsClient() ==> Requests(Fire(c, tx, t, now).log) == Requests(tx.log)
  {
    hide Config.Backoff, Requests, Sends;
    var told := tx.log + [Timeout(t)];
    Appended(tx.log, Timeout(t));
    if tx.request.Some? { Appended(told, SendRequest(tx.request.value)); }
    if tx.response.Some? { Appended(told, SendResponse(tx.response.value)); }
  }

  lemma ReceiveCounted(c: Config, tx: Tx, m: Message, now: real)
    ensures var end := Receive(c, tx, m, now); Requests(end.log) == Requests(tx.log) && end.count == tx.count
  {
    hide Config.Duration, Requests, Sends;
    Appended(tx.log, Final(m));
    Appended(tx.log, Provisional(m));
    if tx.response.Some? { Appended(tx.log, SendResponse(tx.response.value)); }
  }

  lemma AnswerCounted(c: Config, tx: Tx, status: int, response: Message, now: real)
    ensures var end := AnswerFinal(c, tx, status, response, now);
      Requests(end.log) == Requests(tx.log) && end.count == tx.count
    ensures var end := AnswerProvisional(tx, response); Requests(end.log) == Requests(tx.log) && end.count == tx.count
  {
    hide Config.Duration, Requests, Sends;
    Appended(tx.log, SendResponse(response));
  }

  lemma StepCounted(c: Config, tx: Tx, e: Event, now: real)
    requires Enabled(tx, e)
    ensures Counted(tx, Step(c, tx, e, now))
  {
    hide Config.Duration, Receive, AnswerFinal, AnswerProvisional, Fire, Requests, Sends;
    match e
    case Arrives(m) => ReceiveCounted(c, tx, m, now);
    case AppProvisional(response) => AnswerCounted(c, tx, 0, response, now);
    case AppFinal(status, response) => AnswerCounted(c, tx, status, response, now);
    case Fires(t) => FireCounted(c, tx, t, now);
    case Start(request) =>
      Appended(tx.log, SendRequest(request));
      Appended(tx.log, RequestReceived(request));
    case _ =>
  }

  predicate Bounded(tx: Tx) {
    tx.count <= MAX_RETRANSMISSIONS && Requests(tx.log) <= tx.count + if tx.state == Initial then 0 else 1
  }

  /** Whatever happens, a client sends its request at most eight times. */
  lemma {:induction false} RunBounded(c: Config, tx: Tx, run: seq<Moment>)
    requires IsRun(c, tx, run) && Bounded(tx)
    ensures Bounded(After(c, tx, run)) && Requests(After(c, tx, run).log) <= 8
    decreases |run|
  {
    hide Step, Enabled, Requests;
    if run != [] {
      var next := Step(c, tx, run[0].event, run[0].time);
      StepCounted(c, tx, run[0].event, run[0].time);
      StepOrderly(c, tx, run[0].event, run[0].time);
      assert Bounded(next);
      RunBounded(c, next, run[1..]);
    }
  }

  // ---------- Answers of the application ----------

  predicate Answerable(tx: Tx) {
    || (tx.kind == InviteServer && tx.state == Proceeding)
    || (tx.kind == NonInviteServer && tx.state in {Trying, Proceeding})
  }

  /**
   * The manager sends every response through the final-response path, so the first one settles the
   * transaction whatever its status: after a 100 a later 200 is dropped, in every continuation.
   */
  lemma FirstAnswerWins(c: Config, tx: Tx, status: int, response: Message, now: real, run: seq<Moment>,
                        later: int, other: Message, at: real)
    requires Answerable(tx) && IsRun(c, AnswerFinal(c, tx, status, response, now), run)
    ensures var first := AnswerFinal(c, tx, status, response, now);
      && first.response == Some(response) && Sends(first.log) == Sends(tx.log) + 1
      && AnswerFinal(c, After(c, first, run), later, other, at) == After(c, first, run)
  {
    hide Config.Duration, Sends;
    Appended(tx.log, SendResponse(response));
    var first := AnswerFinal(c, tx, status, response, now);
    assert Rank(first.state) == 3 && first.kind == tx.kind;
    hide IsRun, After;
    RunRank(c, first, run);
  }
}
