/** What the transaction manager keeps over every history of requests, responses, timers and cleanups. */
module ManagerSafety {
  import opened Text
  import opened SipMessages
  import opened Transactions
  import opened TransactionSafety
  import opened ViaBranch
  import opened DigestAuth
  import opened TransactionTable

  // ---------- One transaction ----------

  function Deliveries(log: seq<Output>): nat {
    if log == [] then 0 else Deliveries(log[..|log| - 1]) + if log[|log| - 1].RequestReceived? then 1 else 0
  }

  predicate HasFinal(tx: Tx) { exists i | 0 <= i < |tx.log| :: tx.log[i].Final? }

  /** A terminated transaction still has its cleanup to come. */
  predicate CleanupDue(tx: Tx) { tx.state == Terminated ==> tx.cleanups > 0 }

  /** Started, reports in order, and a server has handed exactly one request to the application. */
  predicate Proper(tx: Tx) {
    && tx.state != Initial && tx.request.Some?
    && ReportsOnce(tx)
    && Deliveries(tx.log) == (if tx.kind.IsClient() then 0 else 1)
    && (tx.cleanups > 0 ==> tx.state == Terminated)
  }

  /** What a step of a running transaction keeps. */
  predicate Keeps(tx: Tx, end: Tx) {
    && end.id == tx.id && end.kind == tx.kind && end.request == tx.request && tx.log <= end.log
    && (Proper(tx) ==> Proper(end))
    && (CleanupDue(tx) ==> CleanupDue(end))
    && (HasFinal(tx) ==> HasFinal(end))
  }

  lemma Handed(log: seq<Output>, o: Output)
    ensures Deliveries(log + [o]) == Deliveries(log) + if o.RequestReceived? then 1 else 0
  {
    assert (log + [o])[..|log|] == log;
  }

  lemma ReceiveHands(c: Config, tx: Tx, m: Message, now: real)
    ensures var end := Receive(c, tx, m, now);
      && end.request == tx.request && Deliveries(end.log) == Deliveries(tx.log)
      && (end.cleanups == tx.cleanups || (end.cleanups == tx.cleanups + 1 && end.state == Terminated))
      && (tx.state != Terminated && end.state == Terminated ==> end.cleanups > 0)
  {
    hide Config.Duration, Deliveries;
    Handed(tx.log, Final(m));
    Handed(tx.log, Provisional(m));
    if tx.response.Some? { Handed(tx.log, SendResponse(tx.response.value)); }
  }

  lemma AnswerHands(c: Config, tx: Tx, status: int, response: Message, now: real)
    ensures var end := AnswerFinal(c, tx, status, response, now);
      && end.request == tx.request && Deliveries(end.log) == Deliveries(tx.log)
      && end.cleanups == tx.cleanups && (end.state == Terminated ==> tx.state == Terminated)
  {
    hide Config.Duration, Deliveries;
    Handed(tx.log, SendResponse(response));
  }

  lemma FireHands(c: Config, tx: Tx, t: Timer, now: real)
    ensures var end := Fire(c, tx, t, now);
      && end.request == tx.request && Deliveries(end.log) == Deliveries(tx.log)
      && (end.cleanups == tx.cleanups || (end.cleanups == tx.cleanups + 1 && end.state == Terminated))
      && (tx.state != Terminated && end.state == Terminated ==> end.cleanups > 0)
  {
    hide Config.Backoff, Deliveries;
    Handed(tx.log, Timeout(t));
    var told := tx.log + [Timeout(t)];
    if tx.request.Some? { Handed(told, SendRequest(tx.request.value)); }
    if tx.response.Some? { Handed(told, SendResponse(tx.response.value)); }
  }

  predicate Running(e: Event) { !e.Start? && !e.CleanupRuns? && !e.AppProvisional? }

  lemma StepHands(c: Config, tx: Tx, e: Event, now: real)
    requires Enabled(tx, e) && Running(e)
    ensures var end := Step(c, tx, e, now);
      && end.request == tx.request && Deliveries(end.log) == Deliveries(tx.log)
      && (end.cleanups == tx.cleanups || (end.cleanups == tx.cleanups + 1 && end.state == Terminated))
      && (tx.state != Terminated && end.state == Terminated ==> end.cleanups > 0)
  {
    hide Config.Duration, Receive, AnswerFinal, AnswerProvisional, Fire, Deliveries;
    match e
    case Arrives(m) => ReceiveHands(c, tx, m, now);
    case AppFinal(status, response) => AnswerHands(c, tx, status, response, now);
    case Fires(t) => FireHands(c, tx, t, now);
    case _ =>
  }

  lemma StepKeeps(c: Config, tx: Tx, e: Event, now: real)
    requires Enabled(tx, e) && Running(e)
    ensures Keeps(tx, Step(c, tx, e, now))
  {
    hide Step, Enabled, Deliveries, ReportsOnce, Running;
    StepOrderly(c, tx, e, now);
    StepHands(c, tx, e, now);
    if ReportsOnce(tx) { StepReportsOnce(c, tx, e, now); }
    var end := Step(c, tx, e, now);
    if HasFinal(tx) {
      var i :| 0 <= i < |tx.log| && tx.log[i].Final?;
      assert end.log[i] == tx.log[i];
    }
  }

  lemma CleanKeeps(tx: Tx)
    requires tx.cleanups > 0 && Proper(tx)
    ensures Proper(Clean(tx)) && HasFinal(Clean(tx)) == HasFinal(tx)
  {
  }

  lemma BeginProper(id: string, kind: Kind, request: Message)
    ensures var tx := Begin(NewTx(id, kind), request);
      Proper(tx) && tx.id == id && tx.state != Terminated && !HasFinal(tx)
  {
    Handed([], SendRequest(request));
    Handed([], RequestReceived(request));
  }

  // ---------- The manager ----------

  /** Every entry is stored under its own id, and a terminated one still has its cleanup to come. */
  predicate Filed(m: Manager) {
    forall id | id in m.table ::
      m.table[id] < |m.objects| && m.objects[m.table[id]].id == id && CleanupDue(m.objects[m.table[id]])
  }

  /** Each transaction has at most one successor, and only after its final response. */
  predicate Descended(m: Manager) {
    && |m.parents| == |m.objects|
    && (forall o | 0 <= o < |m.parents| ::
        m.parents[o].Some? ==> m.parents[o].value < o && HasFinal(m.objects[m.parents[o].value]))
    && (forall o, p | 0 <= o < p < |m.parents| :: m.parents[o].Some? ==> m.parents[o] != m.parents[p])
  }

  predicate Sound(m: Manager) {
    && (forall o | 0 <= o < |m.objects| :: Proper(m.objects[o]))
    && Filed(m)
    && Descended(m)
  }

  lemma UpdateSound(m: Manager, o: nat, tx: Tx)
    requires Sound(m) && o < |m.objects| && Keeps(m.objects[o], tx)
    ensures Sound(Update(m, o, tx))
  {
    hide Proper, HasFinal, CleanupDue;
    var n := Update(m, o, tx);
    forall id | id in n.table
      ensures n.table[id] < |n.objects| && n.objects[n.table[id]].id == id && CleanupDue(n.objects[n.table[id]])
    {
      assert m.objects[m.table[id]].id == id;
    }
    forall q | 0 <= q < |n.parents| && n.parents[q].Some?
      ensures n.parents[q].value < q && HasFinal(n.objects[n.parents[q].value]) {
      assert HasFinal(m.objects[m.parents[q].value]);
    }
  }

  lemma CreateSound(m: Manager, id: string, kind: Kind, request: Message, parent: Option<nat>)
    requires Sound(m) && id !in m.table
    requires parent.Some? ==> parent.value < |m.objects| && HasFinal(m.objects[parent.value]) && parent !in m.parents
    ensures Sound(Create(m, id, kind, request, parent))
  {
    BeginProper(id, kind, request);
    hide Proper, HasFinal, Begin, NewTx;
    var n, k := Create(m, id, kind, request, parent), |m.objects|;
    forall o | 0 <= o < |n.objects| ensures Proper(n.objects[o]) { if o < k { assert n.objects[o] == m.objects[o]; } }
    forall i | i in n.table
      ensures n.table[i] < |n.objects| && n.objects[n.table[i]].id == i && CleanupDue(n.objects[n.table[i]])
    {
      if i != id { assert n.objects[n.table[i]] == m.objects[m.table[i]]; }
    }
    forall q | 0 <= q < |n.parents| && n.parents[q].Some?
      ensures n.parents[q].value < q && HasFinal(n.objects[n.parents[q].value]) {
      if q < k { assert n.parents[q] == m.parents[q]; }
    }
    forall o, p | 0 <= o < p < |n.parents| && n.parents[o].Some? ensures n.parents[o] != n.parents[p] {
      assert n.parents[o] == m.parents[o];
      if p < k { assert n.parents[p] == m.parents[p]; }
    }
  }

  lemma CleanupSound(m: Manager, o: nat)
    requires Sound(m) && o < |m.objects| && m.objects[o].cleanups > 0
    ensures Sound(CleanupObject(m, o))
  {
    var tx := m.objects[o];
    CleanKeeps(tx);
    hide Proper, HasFinal;
    var n := CleanupObject(m, o);
    forall i | i in n.table
      ensures n.table[i] < |n.objects| && n.objects[n.table[i]].id == i && CleanupDue(n.objects[n.table[i]])
    {
      assert m.objects[m.table[i]].id == i;
      assert m.table[i] != o;
    }
    forall q | 0 <= q < |n.parents| && n.parents[q].Some?
      ensures n.parents[q].value < q && HasFinal(n.objects[n.parents[q].value]) {
      assert HasFinal(m.objects[m.parents[q].value]);
    }
  }

  lemma DeliverSound(c: Config, m: Manager, id: string, message: Message, now: real)
    requires Sound(m) && id in m.table
    ensures Sound(Deliver(c, m, id, message, now))
  {
    hide Receive, Keeps, Update;
    assert m.table[id] < |m.objects|;
    var o := m.table[id];
    assert Step(c, m.objects[o], Arrives(message), now) == Receive(c, m.objects[o], message, now);
    StepKeeps(c, m.objects[o], Arrives(message), now);
    hide Sound;
    UpdateSound(m, o, Receive(c, m.objects[o], message, now));
  }

  lemma RequestSound(c: Config, m: Manager, request: Message, fallback: string, again: string, now: real)
    requires Sound(m)
    ensures Sound(RequestIn(c, m, request, fallback, again, now))
  {
    hide Sound, Deliver, Create, TransactionId;
    var id, other := TransactionId(request, fallback), TransactionId(request, again);
    if id in m.table { DeliverSound(c, m, id, request, now); }
    if other in m.table { DeliverSound(c, m, other, request, now); }
    else { CreateSound(m, other, ServerKind(request), request, None); }
  }

  lemma CreateClientSound(m: Manager, request: Message, fallback: string, parent: Option<nat>)
    requires Sound(m)
    requires parent.Some? ==> parent.value < |m.objects| && HasFinal(m.objects[parent.value]) && parent !in m.parents
    ensures Sound(CreateClient(m, request, fallback, parent))
  {
    hide Sound, Create, TransactionId, HasFinal;
    var id := TransactionId(request, fallback);
    if id !in m.table {
      CreateSound(m, id, ClientKind(request), request, parent);
    }
  }

  /** A transaction that reports a final response only now has no successor yet. */
  lemma FirstReport(c: Config, m: Manager, o: nat, message: Message, now: real)
    requires Sound(m) && o < |m.objects|
    requires Reported(m.objects[o], Receive(c, m.objects[o], message, now))
    ensures Some(o) !in m.parents && HasFinal(Receive(c, m.objects[o], message, now))
  {
    var tx := m.objects[o];
    var end := Receive(c, tx, message, now);
    assert Proper(tx) && ReportsOnce(tx);
    ReceiveOrderly(c, tx, message, now);
    assert !HasFinal(tx);
    hide Receive;
    assert end.log[|tx.log|].Final?;
  }

  /** The handler's guard holds: the reporting transaction is in the table under its id and has its request. */
  lemma Handler(u: Setup, m: Manager, a: Arrival, fallback: string, now: real)
    requires Sound(m) && TransactionId(a.response, fallback) in m.table
    ensures var id := TransactionId(a.response, fallback);
      var m1 := Deliver(u.timers, m, id, a.response, now);
      && m.table[id] < |m.objects| && |m1.objects| == |m.objects|
      && m1.table == m.table && m1.parents == m.parents && m1.auth == m.auth
      && m1.objects[m.table[id]] == Receive(u.timers, m.objects[m.table[id]], a.response, now)
      && m1.objects[m.table[id]].id == id
      && m1.objects[m.table[id]].request.Some? && m1.objects[m.table[id]].request == m.objects[m.table[id]].request
  {
    hide TransactionId, Receive, ReportsOnce, Deliveries;
    var o := m.table[TransactionId(a.response, fallback)];
    assert Proper(m.objects[o]);
    assert Step(u.timers, m.objects[o], Arrives(a.response), now) == Receive(u.timers, m.objects[o], a.response, now);
    StepKeeps(u.timers, m.objects[o], Arrives(a.response), now);
  }

  lemma AuthSound(m: Manager, auth: Auth)
    requires Sound(m)
    ensures Sound(m.(auth := auth))
  {
    hide Proper, HasFinal, CleanupDue;
  }

  lemma ResponseSound(u: Setup, m: Manager, a: Arrival, fallback: string, again: string, now: real)
    requires Sound(m)
    ensures Sound(ResponseIn(u, m, a, fallback, again, now))
  {
    hide TransactionId, Receive, Deliver, Sound, CreateClient, HasFinal, Reply, Reported;
    var id := TransactionId(a.response, fallback);
    if id in m.table {
      Handler(u, m, a, fallback, now);
      var o := m.table[id];
      DeliverSound(u.timers, m, id, a.response, now);
      var m1 := Deliver(u.timers, m, id, a.response, now);
      if IsChallenge(a.response) && Reported(m.objects[o], m1.objects[o]) {
        FirstReport(u.timers, m, o, a.response, now);
        var (auth, outcome) := Reply(u, m1.auth, m1.objects[o].request.value, a);
        AuthSound(m1, auth);
        if outcome.Retry? { CreateClientSound(m1.(auth := auth), outcome.request, again, Some(o)); }
      }
    }
  }

  lemma NextSound(u: Setup, m: Manager, h: Happening, now: real)
    requires Sound(m) && Possible(m, h)
    ensures Sound(Next(u, m, h, now))
  {
    hide CreateClient, RequestIn, ResponseIn, CleanupObject, Step, AnswerFinal, Keeps, Enabled;
    match h
    case AppSends(request, fallback) => CreateClientSound(m, request, fallback, None);
    case RequestArrives(request, fallback, again) => RequestSound(u.timers, m, request, fallback, again, now);
    case ResponseArrives(a, fallback, again) => ResponseSound(u, m, a, fallback, again, now);
    case CredentialsAdded(realm, user, password) => AuthSound(m, Next(u, m, h, now).auth);
    case AppAnswers(id, status, response) =>
      if id in m.table {
        var o := m.table[id];
        FinalKeeps(u.timers, m.objects[o], status, response, now);
        UpdateSound(m, o, AnswerFinal(u.timers, m.objects[o], status, response, now));
      }
    case Internal(o, e) =>
      StepKeeps(u.timers, m.objects[o], e, now);
      UpdateSound(m, o, Step(u.timers, m.objects[o], e, now));
    case Cleanup(o) => CleanupSound(m, o);
  }

  lemma FinalKeeps(c: Config, tx: Tx, status: int, response: Message, now: real)
    ensures Keeps(tx, AnswerFinal(c, tx, status, response, now))
  {
    hide AnswerFinal, Keeps;
    StepKeeps(c, tx, AppFinal(status, response), now);
  }

  /**
   * Over every history: entries are filed under their own id, each server transaction hands its
   * request to the application exactly once, a terminated entry has a cleanup to come, and no
   * transaction has two successors.
   */
  lemma {:induction false} HistorySound(u: Setup, m: Manager, hs: seq<Occurrence>)
    requires Sound(m) && IsHistory(u, m, hs)
    ensures Sound(Following(u, m, hs))
    decreases |hs|
  {
    hide Sound, Next, Possible;
    if hs != [] {
      NextSound(u, m, hs[0].what, hs[0].time);
      HistorySound(u, Next(u, m, hs[0].what, hs[0].time), hs[1..]);
    }
  }
}
