/** Lifetimes of table entries: one delivery per lifetime, and when a cleanup hits its own entry. */
module ManagerCleanup {
  import opened Text
  import opened SipMessages
  import opened Transactions
  import opened TransactionSafety
  import opened ViaBranch
  import opened DigestAuth
  import opened TransactionTable
  import opened ManagerSafety

  // ---------- One delivery per lifetime of an entry ----------

  /** Old transactions keep their id; new ones take ids that were free. */
  predicate Grows(m: Manager, n: Manager) {
    && |m.objects| <= |n.objects|
    && (forall o | 0 <= o < |m.objects| :: n.objects[o].id == m.objects[o].id && n.objects[o].kind == m.objects[o].kind)
    && (forall o | |m.objects| <= o < |n.objects| :: n.objects[o].id !in m.table)
  }

  lemma UpdateGrows(m: Manager, o: nat, tx: Tx)
    requires o < |m.objects| && tx.id == m.objects[o].id && tx.kind == m.objects[o].kind
    ensures Grows(m, Update(m, o, tx))
  {
  }

  lemma CreateGrows(m: Manager, id: string, kind: Kind, request: Message, parent: Option<nat>)
    requires id !in m.table
    ensures Grows(m, Create(m, id, kind, request, parent))
  {
    BeginProper(id, kind, request);
    hide Begin, NewTx, Proper, HasFinal;
  }

  lemma DeliverGrows(c: Config, m: Manager, id: string, message: Message, now: real)
    requires id in m.table
    ensures var n := Deliver(c, m, id, message, now); Grows(m, n) && |n.objects| == |m.objects| && n.table == m.table
  {
    hide Receive, Extends;
    var o := m.table[id];
    if o < |m.objects| { ReceiveOrderly(c, m.objects[o], message, now); }
  }

  lemma RequestGrows(c: Config, m: Manager, request: Message, fallback: string, again: string, now: real)
    ensures Grows(m, RequestIn(c, m, request, fallback, again, now))
  {
    hide Deliver, Create, TransactionId, Grows;
    var id, other := TransactionId(request, fallback), TransactionId(request, again);
    if id in m.table { DeliverGrows(c, m, id, request, now); }
    if other in m.table { DeliverGrows(c, m, other, request, now); }
    else { CreateGrows(m, other, ServerKind(request), request, None); }
  }

  lemma ResponseGrows(u: Setup, m: Manager, a: Arrival, fallback: string, again: string, now: real)
    requires Sound(m)
    ensures Grows(m, ResponseIn(u, m, a, fallback, again, now))
  {
    hide Deliver, Create, TransactionId, Reported, Reply, Sound, Receive;
    var id := TransactionId(a.response, fallback);
    if id in m.table {
      Handler(u, m, a, fallback, now);
      DeliverGrows(u.timers, m, id, a.response, now);
      var o := m.table[id];
      var m1 := Deliver(u.timers, m, id, a.response, now);
      var (auth, outcome) := Reply(u, m1.auth, m1.objects[o].request.value, a);
      if outcome.Retry? {
        var fresher := TransactionId(outcome.request, again);
        if fresher !in m1.table {
          CreateGrows(m1.(auth := auth), fresher, ClientKind(outcome.request),
                      outcome.request, Some(o));
        }
      }
    }
  }

  lemma NextGrows(u: Setup, m: Manager, h: Happening, now: real)
    requires Sound(m) && Possible(m, h)
    ensures Grows(m, Next(u, m, h, now))
  {
    hide RequestIn, ResponseIn, Step, AnswerFinal, Enabled, Extends, Create, TransactionId, Update, Grows;
    match h
    case AppSends(request, fallback) =>
      var id := TransactionId(request, fallback);
      if id !in m.table {
        CreateGrows(m, id, ClientKind(request), request, None);
      }
      else { SameGrows(m, m.auth); }
    case RequestArrives(request, fallback, again) => RequestGrows(u.timers, m, request, fallback, again, now);
    case ResponseArrives(a, fallback, again) => ResponseGrows(u, m, a, fallback, again, now);
    case CredentialsAdded(realm, user, password) => SameGrows(m, Next(u, m, h, now).auth);
    case AppAnswers(id, status, response) =>
      if id in m.table && m.table[id] < |m.objects| {
        AnswerOrderly(u.timers, m.objects[m.table[id]], status, response, now);
        UpdateGrows(m, m.table[id], AnswerFinal(u.timers, m.objects[m.table[id]], status, response, now));
      } else { SameGrows(m, m.auth); }
    case Internal(o, e) =>
      StepOrderly(u.timers, m.objects[o], e, now);
      UpdateGrows(m, o, Step(u.timers, m.objects[o], e, now));
    case Cleanup(o) => CleanupGrows(m, o);
  }

  lemma SameGrows(m: Manager, auth: Auth)
    ensures Grows(m, m.(auth := auth))
  {
  }

  lemma CleanupGrows(m: Manager, o: nat)
    requires o < |m.objects| && m.objects[o].cleanups > 0
    ensures Grows(m, CleanupObject(m, o))
  {
  }

  /** The id is in the table all the way. */
  predicate StaysFiled(u: Setup, m: Manager, hs: seq<Occurrence>, id: string)
    requires IsHistory(u, m, hs)
    decreases |hs|
  {
    id in m.table && (hs == [] || StaysFiled(u, Next(u, m, hs[0].what, hs[0].time), hs[1..], id))
  }

  /**
   * As long as an id stays in the table no other transaction is created for it, whatever arrives,
   * so its request is handed to the application by the one transaction there and only once.
   */
  lemma {:induction false} OncePerLifetime(u: Setup, m: Manager, hs: seq<Occurrence>, id: string)
    requires Sound(m) && IsHistory(u, m, hs) && StaysFiled(u, m, hs, id)
    ensures var end := Following(u, m, hs);
      && |m.objects| <= |end.objects|
      && (forall o | 0 <= o < |m.objects| :: end.objects[o].id == m.objects[o].id)
      && (forall o | |m.objects| <= o < |end.objects| :: end.objects[o].id != id)
      && (forall o | 0 <= o < |end.objects| ::
          Deliveries(end.objects[o].log) == if end.objects[o].kind.IsClient() then 0 else 1)
    decreases |hs|
  {
    hide Next, Possible, Sound, Proper, Deliveries;
    if hs == [] {
      ProperDeliveries(m);
    } else {
      var n := Next(u, m, hs[0].what, hs[0].time);
      NextSound(u, m, hs[0].what, hs[0].time);
      NextGrows(u, m, hs[0].what, hs[0].time);
      OncePerLifetime(u, n, hs[1..], id);
      var end := Following(u, m, hs);
      forall o | |m.objects| <= o < |end.objects| ensures end.objects[o].id != id {
        if o < |n.objects| { assert end.objects[o].id == n.objects[o].id; }
      }
    }
  }

  lemma ProperDeliveries(m: Manager)
    requires Sound(m)
    ensures forall o | 0 <= o < |m.objects| ::
        Deliveries(m.objects[o].log) == if m.objects[o].kind.IsClient() then 0 else 1
  {
    hide Deliveries;
    forall o | 0 <= o < |m.objects|
      ensures Deliveries(m.objects[o].log) == if m.objects[o].kind.IsClient() then 0 else 1
    {
      assert Proper(m.objects[o]);
    }
  }

  // ---------- Cleanups ----------

  /** Every transaction that is running, or terminated and not cleaned up, is the one in the table. */
  predicate Owned(m: Manager) {
    forall o | 0 <= o < |m.objects| :: Owns(m, o)
  }

  predicate Owns(m: Manager, o: nat)
    requires o < |m.objects|
  {
    var tx := m.objects[o];
    && tx.cleanups <= 1
    && (tx.state != Terminated || tx.cleanups > 0 ==> tx.id in m.table && m.table[tx.id] == o)
  }

  /** This timer would end the transaction now. */
  predicate EndsNow(tx: Tx, t: Timer) { Ends(t) || (Retransmits(t) && tx.count >= MAX_RETRANSMISSIONS) }

  /** No timer ends a transaction a second time. */
  predicate Prompt(m: Manager, h: Happening) {
    h.Internal? && h.o < |m.objects| && h.event.Fires? && m.objects[h.o].state == Terminated ==>
      !EndsNow(m.objects[h.o], h.event.timer)
  }

  /** The cleanups after a step that did, or did not, end the transaction. */
  predicate Tallied(tx: Tx, end: Tx, again: bool) {
    end.cleanups == tx.cleanups + (if end.state == Terminated && (tx.state != Terminated || again) then 1 else 0)
  }

  lemma ReceiveCleanups(c: Config, tx: Tx, m: Message, now: real)
    ensures Tallied(tx, Receive(c, tx, m, now), false)
  {
    hide Config.Duration;
  }

  lemma AnswerCleanups(c: Config, tx: Tx, status: int, response: Message, now: real)
    ensures Tallied(tx, AnswerFinal(c, tx, status, response, now), false)
  {
    hide Config.Duration;
  }

  lemma FireCleanups(c: Config, tx: Tx, t: Timer, now: real)
    ensures Tallied(tx, Fire(c, tx, t, now), EndsNow(tx, t))
        && (EndsNow(tx, t) ==> Fire(c, tx, t, now).state == Terminated)
  {
    hide Config.Backoff;
  }

  lemma StepCleanups(c: Config, tx: Tx, e: Event, now: real)
    requires Enabled(tx, e) && Running(e)
    ensures Tallied(tx, Step(c, tx, e, now), e.Fires? && EndsNow(tx, e.timer))
    ensures e.Fires? && EndsNow(tx, e.timer) ==> Step(c, tx, e, now).state == Terminated
  {
    hide Config.Duration, Receive, AnswerFinal, AnswerProvisional, Fire, EndsNow;
    match e
    case Arrives(m) => ReceiveCleanups(c, tx, m, now);
    case AppFinal(status, response) => AnswerCleanups(c, tx, status, response, now);
    case Fires(t) => FireCleanups(c, tx, t, now);
    case _ =>
  }

  lemma UpdateOwned(m: Manager, o: nat, tx: Tx)
    requires Owned(m) && o < |m.objects| && tx.id == m.objects[o].id
    requires tx.cleanups
        == m.objects[o].cleanups + (if tx.state == Terminated && m.objects[o].state != Terminated then 1 else 0)
    requires m.objects[o].cleanups > 0 ==> m.objects[o].state == Terminated
    requires m.objects[o].state == Terminated ==> tx.state == Terminated
    ensures Owned(Update(m, o, tx))
  {
    var n := Update(m, o, tx);
    assert Owns(m, o);
    forall p | 0 <= p < |n.objects| ensures Owns(n, p) { assert Owns(m, p); }
  }

  lemma CreateOwned(m: Manager, id: string, kind: Kind, request: Message, parent: Option<nat>)
    requires Owned(m) && id !in m.table
    ensures Owned(Create(m, id, kind, request, parent))
  {
    BeginProper(id, kind, request);
    assert Begin(NewTx(id, kind), request).cleanups == 0;
    hide Begin, NewTx, Proper, HasFinal;
    var n := Create(m, id, kind, request, parent);
    forall p | 0 <= p < |n.objects| ensures Owns(n, p) {
      if p < |m.objects| { assert Owns(m, p); }
    }
  }

  lemma CleanupOwned(m: Manager, o: nat)
    requires Owned(m) && o < |m.objects| && m.objects[o].cleanups > 0 && m.objects[o].state == Terminated
    ensures Owned(CleanupObject(m, o))
  {
    var n := CleanupObject(m, o);
    assert Owns(m, o);
    forall p | 0 <= p < |n.objects| ensures Owns(n, p) { assert Owns(m, p); }
  }

  lemma StepOwned(c: Config, m: Manager, o: nat, e: Event, now: real)
    requires Owned(m) && Sound(m) && o < |m.objects| && Enabled(m.objects[o], e) && Running(e)
    requires !(e.Fires? && m.objects[o].state == Terminated && EndsNow(m.objects[o], e.timer))
    ensures Owned(Update(m, o, Step(c, m.objects[o], e, now)))
  {
    var tx := m.objects[o];
    assert Proper(tx);
    hide Step, Enabled, Owned, Update, ReportsOnce, Deliveries, Extends;
    StepOrderly(c, tx, e, now);
    StepCleanups(c, tx, e, now);
    UpdateOwned(m, o, Step(c, tx, e, now));
  }

  lemma DeliverOwned(c: Config, m: Manager, id: string, message: Message, now: real)
    requires Owned(m) && Sound(m) && id in m.table
    ensures Owned(Deliver(c, m, id, message, now))
  {
    assert m.table[id] < |m.objects|;
    var o := m.table[id];
    assert Step(c, m.objects[o], Arrives(message), now) == Receive(c, m.objects[o], message, now);
    hide Receive, Owned, Sound, Update;
    StepOwned(c, m, o, Arrives(message), now);
  }

  lemma AnswerOwned(c: Config, m: Manager, id: string, status: int, response: Message, now: real)
    requires Owned(m) && Sound(m)
    ensures Owned(Answer(c, m, id, status, response, now))
  {
    if id in m.table {
      assert m.table[id] < |m.objects|;
      var o := m.table[id];
      assert Step(c, m.objects[o], AppFinal(status, response), now)
        == AnswerFinal(c, m.objects[o], status, response, now);
      hide AnswerFinal, Owned, Sound, Update;
      StepOwned(c, m, o, AppFinal(status, response), now);
    }
  }

  lemma RequestOwned(c: Config, m: Manager, request: Message, fallback: string, again: string, now: real)
    requires Owned(m) && Sound(m)
    ensures Owned(RequestIn(c, m, request, fallback, again, now))
  {
    hide Sound, Owned, Deliver, Create, TransactionId;
    var id, other := TransactionId(request, fallback), TransactionId(request, again);
    if id in m.table { DeliverOwned(c, m, id, request, now); }
    if other in m.table { DeliverOwned(c, m, other, request, now); }
    else { CreateOwned(m, other, ServerKind(request), request, None); }
  }

  lemma CreateClientOwned(m: Manager, request: Message, fallback: string, parent: Option<nat>)
    requires Owned(m)
    ensures Owned(CreateClient(m, request, fallback, parent))
  {
    hide Owned, Create, TransactionId;
    var id := TransactionId(request, fallback);
    if id !in m.table {
      CreateOwned(m, id, ClientKind(request), request, parent);
    }
  }

  lemma AuthOwned(m: Manager, auth: Auth)
    requires Owned(m)
    ensures Owned(m.(auth := auth))
  {
    var n := m.(auth := auth);
    forall p | 0 <= p < |n.objects| ensures Owns(n, p) { assert Owns(m, p); }
  }

  lemma ResponseOwned(u: Setup, m: Manager, a: Arrival, fallback: string, again: string, now: real)
    requires Owned(m) && Sound(m)
    ensures Owned(ResponseIn(u, m, a, fallback, again, now))
  {
    hide Sound, Owned, Deliver, CreateClient, TransactionId, Reported, Reply, Receive;
    var id := TransactionId(a.response, fallback);
    if id in m.table {
      Handler(u, m, a, fallback, now);
      DeliverOwned(u.timers, m, id, a.response, now);
      var o := m.table[id];
      var m1 := Deliver(u.timers, m, id, a.response, now);
      var (auth, outcome) := Reply(u, m1.auth, m1.objects[o].request.value, a);
      AuthOwned(m1, auth);
      if outcome.Retry? { CreateClientOwned(m1.(auth := auth), outcome.request, again, Some(o)); }
    }
  }

  lemma PromptOwned(u: Setup, m: Manager, h: Happening, now: real)
    requires Sound(m) && Owned(m) && Possible(m, h) && Prompt(m, h)
    ensures Owned(Next(u, m, h, now))
  {
    hide CreateClient, RequestIn, ResponseIn, CleanupObject, Answer, Step, Enabled, Owned, EndsNow, Update;
    match h
    case AppSends(request, fallback) => CreateClientOwned(m, request, fallback, None);
    case RequestArrives(request, fallback, again) => RequestOwned(u.timers, m, request, fallback, again, now);
    case ResponseArrives(a, fallback, again) => ResponseOwned(u, m, a, fallback, again, now);
    case CredentialsAdded(realm, user, password) => AuthOwned(m, Next(u, m, h, now).auth);
    case AppAnswers(id, status, response) => AnswerOwned(u.timers, m, id, status, response, now);
    case Internal(o, e) => StepOwned(u.timers, m, o, e, now);
    case Cleanup(o) =>
      assert Proper(m.objects[o]);
      CleanupOwned(m, o);
  }

  /** Ending a transaction twice leaves a cleanup that no entry answers to. */
  lemma LateOwned(c: Config, m: Manager, o: nat, t: Timer, now: real)
    requires Sound(m) && Owned(m) && o < |m.objects| && t in m.objects[o].timers
    requires m.objects[o].state == Terminated && EndsNow(m.objects[o], t)
    ensures !Owned(Update(m, o, Step(c, m.objects[o], Fires(t), now)))
  {
    var tx := m.objects[o];
    StepCleanups(c, tx, Fires(t), now);
    StepOrderly(c, tx, Fires(t), now);
    hide Step, EndsNow, Extends;
    var n := Update(m, o, Step(c, tx, Fires(t), now));
    assert Owns(m, o);
    assert tx.id in m.table && m.table[tx.id] == o ==> CleanupDue(m.objects[m.table[tx.id]]);
    assert n.objects[o].cleanups == tx.cleanups + 1;
    assert !Owns(n, o);
  }

  /** One step keeps every cleanup aimed at its own entry, if and only if no timer ends a transaction twice. */
  lemma OwnedStep(u: Setup, m: Manager, h: Happening, now: real)
    requires Sound(m) && Owned(m) && Possible(m, h)
    ensures Owned(Next(u, m, h, now)) <==> Prompt(m, h)
  {
    hide Owned, Sound, Step, EndsNow, Update, CreateClient, RequestIn, ResponseIn, CleanupObject, Answer;
    if Prompt(m, h) { PromptOwned(u, m, h, now); }
    else { LateOwned(u.timers, m, h.o, h.event.timer, now); }
  }

  predicate PromptHistory(u: Setup, m: Manager, hs: seq<Occurrence>)
    requires IsHistory(u, m, hs)
    decreases |hs|
  {
    hs == [] || (Prompt(m, hs[0].what) && PromptHistory(u, Next(u, m, hs[0].what, hs[0].time), hs[1..]))
  }

  /** At every point of the history. */
  predicate AlwaysOwned(u: Setup, m: Manager, hs: seq<Occurrence>)
    requires IsHistory(u, m, hs)
    decreases |hs|
  {
    Owned(m) && (hs == [] || AlwaysOwned(u, Next(u, m, hs[0].what, hs[0].time), hs[1..]))
  }

  lemma NothingYet()
    ensures Sound(NO_TRANSACTIONS) && Owned(NO_TRANSACTIONS)
  {
  }

  lemma {:induction false} OwnedFrom(u: Setup, m: Manager, hs: seq<Occurrence>)
    requires Sound(m) && Owned(m) && IsHistory(u, m, hs)
    ensures AlwaysOwned(u, m, hs) <==> PromptHistory(u, m, hs)
    ensures PromptHistory(u, m, hs) ==> Owned(Following(u, m, hs))
    decreases |hs|
  {
    hide Owned, Sound, Next, Possible, Prompt;
    if hs != [] {
      var n := Next(u, m, hs[0].what, hs[0].time);
      OwnedStep(u, m, hs[0].what, hs[0].time);
      NextSound(u, m, hs[0].what, hs[0].time);
      if Owned(n) { OwnedFrom(u, n, hs[1..]); }
      else { NotOwned(u, n, hs[1..]); }
    }
  }

  lemma NotOwned(u: Setup, m: Manager, hs: seq<Occurrence>)
    requires IsHistory(u, m, hs) && !Owned(m)
    ensures !AlwaysOwned(u, m, hs)
  {
  }

  /**
   * Over every history of a user agent: every cleanup is aimed at the entry of its own terminated
   * transaction all the way, if and only if no timer ever ends a transaction a second time.
   */
  lemma OwnedExact(u: Setup, hs: seq<Occurrence>)
    requires IsHistory(u, NO_TRANSACTIONS, hs)
    ensures AlwaysOwned(u, NO_TRANSACTIONS, hs) <==> PromptHistory(u, NO_TRANSACTIONS, hs)
  {
    hide IsHistory, AlwaysOwned, PromptHistory;
    OwnedFrom(u, NO_TRANSACTIONS, hs);
  }

  /** Then a cleanup removes the entry of its own terminated transaction and no other. */
  lemma CleanupRemovesOwn(u: Setup, hs: seq<Occurrence>, o: nat, now: real)
    requires IsHistory(u, NO_TRANSACTIONS, hs) && PromptHistory(u, NO_TRANSACTIONS, hs)
    requires Possible(Following(u, NO_TRANSACTIONS, hs), Cleanup(o))
    ensures var m := Following(u, NO_TRANSACTIONS, hs);
      var id := m.objects[o].id;
      && m.objects[o].state == Terminated
      && id in m.table && m.table[id] == o
      && Next(u, m, Cleanup(o), now).table == m.table - {id}
  {
    hide IsHistory, PromptHistory, Following, AlwaysOwned;
    OwnedFrom(u, NO_TRANSACTIONS, hs);
    HistorySound(u, NO_TRANSACTIONS, hs);
    var m := Following(u, NO_TRANSACTIONS, hs);
    assert Owns(m, o);
    assert Proper(m.objects[o]);
  }
}
