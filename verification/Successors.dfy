/** Requests sent again after a challenge: which transaction succeeds which, over every history. */
module Successors {
  import opened Text
  import opened SipMessages
  import opened Transactions
  import opened ViaBranch
  import opened DigestAuth
  import opened ChallengeChain
  import opened TransactionTable
  import opened ManagerSafety

  // ---------- Handling one challenge ----------

  /** This response is a challenge, and its transaction reports it. */
  predicate Challenged(u: Setup, m: Manager, a: Arrival, fallback: string, now: real) {
    var id := TransactionId(a.response, fallback);
    && IsChallenge(a.response)
    && id in m.table && m.table[id] < |m.objects|
    && Reported(m.objects[m.table[id]], Receive(u.timers, m.objects[m.table[id]], a.response, now))
  }

  /** Exactly one transaction was created, and it is the only successor of `o`. */
  predicate OneSuccessor(m: Manager, n: Manager, o: nat, tx: Tx) {
    && |n.objects| == |n.parents| == |m.objects| + 1
    && n.objects[|m.objects|] == tx
    && n.table == m.table[tx.id := |m.objects|]
    && forall q | 0 <= q < |n.parents| :: n.parents[q] == Some(o) <==> q == |m.objects|
  }

  predicate NoSuccessor(m: Manager, n: Manager) {
    |n.objects| == |m.objects| && n.parents == m.parents && n.table == m.table
  }

  lemma CreatesOne(m: Manager, m1: Manager, o: nat, request: Message, again: string)
    requires |m.parents| == |m.objects| == |m1.objects| && m1.parents == m.parents && m1.table == m.table
    requires Some(o) !in m.parents && TransactionId(request, again) !in m.table
    ensures OneSuccessor(m, CreateClient(m1, request, again, Some(o)), o,
                         Begin(NewTx(TransactionId(request, again), ClientKind(request)), request))
  {
    BeginProper(TransactionId(request, again), ClientKind(request), request);
    hide Begin, NewTx, TransactionId, Proper, HasFinal;
    var n := CreateClient(m1, request, again, Some(o));
    forall q | 0 <= q < |n.parents| ensures n.parents[q] == Some(o) <==> q == |m.objects| {
      if q < |m.objects| { assert n.parents[q] == m.parents[q]; }
    }
  }

  /**
   * At every point of every history: the challenge handler finds the transaction that reports a
   * challenge, with its request. It creates exactly one transaction, the only successor of that
   * one, if the authenticator makes a new request and its id is free, and none otherwise.
   */
  lemma ChallengeAnswered(u: Setup, hs: seq<Occurrence>, a: Arrival, fallback: string, again: string, now: real)
    requires IsHistory(u, NO_TRANSACTIONS, hs) && Challenged(u, Following(u, NO_TRANSACTIONS, hs), a, fallback, now)
    ensures var m := Following(u, NO_TRANSACTIONS, hs);
      var o := m.table[TransactionId(a.response, fallback)];
      var n := ResponseIn(u, m, a, fallback, again, now);
      && m.objects[o].request.Some?
      && var (auth, outcome) := Reply(u, m.auth, m.objects[o].request.value, a);
      && n.auth == auth
      && if outcome.Retry? && TransactionId(outcome.request, again) !in m.table
         then OneSuccessor(m, n, o,
                           Begin(NewTx(TransactionId(outcome.request, again), ClientKind(outcome.request)),
                                 outcome.request))
         else NoSuccessor(m, n)
  {
    hide IsHistory, Following;
    HistorySound(u, NO_TRANSACTIONS, hs);
    hide Sound;
    ChallengeFrom(u, Following(u, NO_TRANSACTIONS, hs), a, fallback, again, now);
  }

  lemma ChallengeFrom(u: Setup, m: Manager, a: Arrival, fallback: string, again: string, now: real)
    requires Sound(m) && Challenged(u, m, a, fallback, now)
    ensures var o := m.table[TransactionId(a.response, fallback)];
      var n := ResponseIn(u, m, a, fallback, again, now);
      && m.objects[o].request.Some?
      && var (auth, outcome) := Reply(u, m.auth, m.objects[o].request.value, a);
      && n.auth == auth
      && if outcome.Retry? && TransactionId(outcome.request, again) !in m.table
         then OneSuccessor(m, n, o,
                           Begin(NewTx(TransactionId(outcome.request, again), ClientKind(outcome.request)),
                                 outcome.request))
         else NoSuccessor(m, n)
  {
    hide Sound, TransactionId, Receive, Deliver, Reply, Reported, Begin, NewTx, OneSuccessor, HasFinal, Create;
    var id := TransactionId(a.response, fallback);
    var o := m.table[id];
    Handler(u, m, a, fallback, now);
    FirstReport(u.timers, m, o, a.response, now);
    Paired(m);
    var m1 := Deliver(u.timers, m, id, a.response, now);
    var (auth, outcome) := Reply(u, m.auth, m.objects[o].request.value, a);
    if outcome.Retry? && TransactionId(outcome.request, again) !in m.table {
      CreatesOne(m, m1.(auth := auth), o, outcome.request, again);
      CreateAuth(m1.(auth := auth), outcome.request, again, Some(o));
    }
  }

  lemma Paired(m: Manager)
    requires Sound(m)
    ensures |m.parents| == |m.objects|
  {
  }

  lemma CreateAuth(m: Manager, request: Message, again: string, parent: Option<nat>)
    ensures CreateClient(m, request, again, parent).auth == m.auth
  {
    hide TransactionId, Begin, NewTx;
  }

  // ---------- Who succeeds whom ----------

  /** `q` sends the request of `p` again, answering the challenge `response` that `p` reported, under `q`'s id. */
  ghost predicate AnsweredBy(u: Setup, p: Tx, q: Tx, response: Message, auth: Auth, cnonce: string) {
    && p.request.Some? && q.request.Some? && q.kind == p.kind
    && Final(response) in p.log && IsChallenge(response)
    && var header := HandleChallenge(u.hash, u.parse, auth, response, p.request.value, cnonce).1;
    Given(header) && Retried(p.request.value, q.request.value, response.start.status, header.value, q.id)
  }

  ghost predicate Succeeds(u: Setup, p: Tx, q: Tx) {
    exists response: Message, auth: Auth, cnonce: string :: AnsweredBy(u, p, q, response, auth, cnonce)
  }

  /** A client transaction is of the kind of its request. */
  predicate ClientRequest(tx: Tx) {
    tx.kind.IsClient() ==> tx.request.Some? && Plain(tx.request.value) && tx.kind == ClientKind(tx.request.value)
  }

  /** Every client sends a plain request, and every successor the request of the one it succeeds. */
  ghost predicate Lineage(u: Setup, m: Manager) {
    && |m.parents| == |m.objects|
    && (forall o | 0 <= o < |m.objects| :: ClientRequest(m.objects[o]))
    && (forall o | 0 <= o < |m.parents| :: m.parents[o].Some? ==>
          m.parents[o].value < o && Succeeds(u, m.objects[m.parents[o].value], m.objects[o]))
  }

  predicate SameRole(tx: Tx, end: Tx) {
    end.id == tx.id && end.kind == tx.kind && end.request == tx.request && tx.log <= end.log
  }

  lemma SucceedsKept(u: Setup, p: Tx, q: Tx, p1: Tx, q1: Tx)
    requires Succeeds(u, p, q) && SameRole(p, p1) && SameRole(q, q1)
    ensures Succeeds(u, p1, q1)
  {
    hide Retried, HandleChallenge, Given, IsChallenge;
    var response, auth, cnonce :| AnsweredBy(u, p, q, response, auth, cnonce);
    assert AnsweredBy(u, p1, q1, response, auth, cnonce);
  }

  lemma UpdateLineage(u: Setup, m: Manager, o: nat, tx: Tx)
    requires Lineage(u, m) && o < |m.objects| && SameRole(m.objects[o], tx)
    ensures Lineage(u, Update(m, o, tx))
  {
    hide Succeeds, Plain, ClientKind;
    var n := Update(m, o, tx);
    forall q | 0 <= q < |n.objects| ensures ClientRequest(n.objects[q]) { assert ClientRequest(m.objects[q]); }
    forall q | 0 <= q < |n.parents| && n.parents[q].Some?
      ensures n.parents[q].value < q && Succeeds(u, n.objects[n.parents[q].value], n.objects[q])
    {
      var p := m.parents[q].value;
      SucceedsKept(u, m.objects[p], m.objects[q], n.objects[p], n.objects[q]);
    }
  }

  lemma CreateLineage(u: Setup, m: Manager, id: string, kind: Kind, request: Message, parent: Option<nat>)
    requires Lineage(u, m) && ClientRequest(Begin(NewTx(id, kind), request))
    requires parent.Some? ==>
        parent.value < |m.objects| && Succeeds(u, m.objects[parent.value], Begin(NewTx(id, kind), request))
    ensures Lineage(u, Create(m, id, kind, request, parent))
  {
    hide Succeeds, ClientRequest, Begin, NewTx;
    var n, k := Create(m, id, kind, request, parent), |m.objects|;
    forall q | 0 <= q < |n.objects| ensures ClientRequest(n.objects[q]) {
      if q < k { assert n.objects[q] == m.objects[q]; }
    }
    forall q | 0 <= q < |n.parents| && n.parents[q].Some?
      ensures n.parents[q].value < q && Succeeds(u, n.objects[n.parents[q].value], n.objects[q])
    {
      if q < k { assert n.parents[q] == m.parents[q]; }
    }
  }

  lemma ClientBegins(id: string, request: Message)
    requires Plain(request)
    ensures var tx := Begin(NewTx(id, ClientKind(request)), request);
      ClientRequest(tx) && tx.request == Some(request) && tx.id == id && tx.kind == ClientKind(request)
  {
    hide Plain, IsInvite;
  }

  lemma ServerBegins(id: string, kind: Kind, request: Message)
    requires !kind.IsClient()
    ensures ClientRequest(Begin(NewTx(id, kind), request))
  {
    hide Plain;
  }

  lemma KeptRole(tx: Tx, end: Tx)
    requires Keeps(tx, end)
    ensures SameRole(tx, end)
  {
    hide Proper, HasFinal, CleanupDue;
  }

  lemma ReceivesRole(c: Config, tx: Tx, message: Message, now: real)
    ensures SameRole(tx, Receive(c, tx, message, now))
  {
    assert Step(c, tx, Arrives(message), now) == Receive(c, tx, message, now);
    hide Receive, Keeps, SameRole, Step;
    StepKeeps(c, tx, Arrives(message), now);
    KeptRole(tx, Receive(c, tx, message, now));
  }

  lemma DeliverLineage(u: Setup, m: Manager, id: string, message: Message, now: real)
    requires Lineage(u, m) && id in m.table
    ensures Lineage(u, Deliver(u.timers, m, id, message, now))
  {
    hide Receive, Lineage, SameRole, Update;
    var o := m.table[id];
    if o < |m.objects| {
      ReceivesRole(u.timers, m.objects[o], message, now);
      UpdateLineage(u, m, o, Receive(u.timers, m.objects[o], message, now));
    }
  }

  lemma RequestLineage(u: Setup, m: Manager, request: Message, fallback: string, again: string, now: real)
    requires Lineage(u, m)
    ensures Lineage(u, RequestIn(u.timers, m, request, fallback, again, now))
  {
    hide Lineage, Deliver, Create, TransactionId, ClientRequest, Begin, NewTx;
    var id, other := TransactionId(request, fallback), TransactionId(request, again);
    if id in m.table { DeliverLineage(u, m, id, request, now); }
    if other in m.table { DeliverLineage(u, m, other, request, now); }
    else {
      var kind := ServerKind(request);
      ServerBegins(other, kind, request);
      CreateLineage(u, m, other, kind, request, None);
    }
  }

  /** The transaction id of a retry stands for its branch. */
  lemma RetriedId(r: Message, q: Message, status: int, value: string, branch: string, again: string)
    requires Retried(r, q, status, value, branch)
    ensures Retried(r, q, status, value, TransactionId(q, again))
  {
    hide Plain, SameRequest, CSeqMoved, Get, HowMany, BranchOf, CredentialsHeader, OtherHeader;
  }

  /** Only a client reports a final response, and it is the one that arrived. */
  lemma ReportedFinal(c: Config, tx: Tx, message: Message, now: real)
    requires Reported(tx, Receive(c, tx, message, now))
    ensures tx.kind.IsClient() && Final(message) in Receive(c, tx, message, now).log
  {
    hide Config.Duration;
    var end := Receive(c, tx, message, now);
    assert end.log[|tx.log|] in end.log;
  }

  lemma RetrySucceeds(u: Setup, p: Tx, auth: Auth, a: Arrival, again: string)
    requires p.kind.IsClient() && ClientRequest(p) && Final(a.response) in p.log && IsChallenge(a.response)
    requires TidyArrival(u.parse, a) && Reply(u, auth, p.request.value, a).1.Retry?
    ensures var q := Reply(u, auth, p.request.value, a).1.request;
      var tx := Begin(NewTx(TransactionId(q, again), ClientKind(q)), q);
      Plain(q) && ClientRequest(tx) && Succeeds(u, p, tx)
  {
    hide TidyArrival, HandleChallenge, Authenticate, TransactionId, Begin, NewTx, IsChallenge;
    var r := p.request.value;
    AnswerStep(u.hash, u.parse, auth, r, a);
    var q := Reply(u, auth, r, a).1.request;
    var header := HandleChallenge(u.hash, u.parse, auth, a.response, r, a.cnonce).1;
    RetriedId(r, q, a.response.start.status, header.value, a.branch, again);
    RetriedPlain(r, q, a.response.start.status, header.value, a.branch);
    hide Retried, Plain;
    ClientBegins(TransactionId(q, again), q);
    assert AnsweredBy(u, p, Begin(NewTx(TransactionId(q, again), ClientKind(q)), q), a.response, auth, a.cnonce);
  }

  lemma RetriedPlain(r: Message, q: Message, status: int, value: string, branch: string)
    requires Retried(r, q, status, value, branch)
    ensures Plain(q) && q.start == r.start && ClientKind(q) == ClientKind(r)
  {
    hide Plain, CSeqMoved, ViaAfter, Get, HowMany, Others;
  }

  lemma AuthLineage(u: Setup, m: Manager, auth: Auth)
    requires Lineage(u, m)
    ensures Lineage(u, m.(auth := auth))
  {
    hide Succeeds, ClientRequest;
  }

  lemma ClientLineage(u: Setup, m: Manager, request: Message, fallback: string, parent: Option<nat>)
    requires Lineage(u, m) && Plain(request)
    requires parent.Some? ==>
      (parent.value < |m.objects|
       && Succeeds(u, m.objects[parent.value],
                   Begin(NewTx(TransactionId(request, fallback), ClientKind(request)), request)))
    ensures Lineage(u, CreateClient(m, request, fallback, parent))
  {
    hide Lineage, Create, TransactionId, Succeeds, ClientRequest, Begin, NewTx, Plain;
    var id := TransactionId(request, fallback);
    ClientBegins(id, request);
    if id !in m.table { CreateLineage(u, m, id, ClientKind(request), request, parent); }
  }

  lemma LineageAt(u: Setup, m: Manager, o: nat)
    requires Lineage(u, m) && o < |m.objects|
    ensures ClientRequest(m.objects[o])
  {
    hide Succeeds, ClientRequest;
  }

  lemma ResponseLineage(u: Setup, m: Manager, a: Arrival, fallback: string, again: string, now: real)
    requires Sound(m) && Lineage(u, m) && TidyArrival(u.parse, a)
    ensures Lineage(u, ResponseIn(u, m, a, fallback, again, now))
  {
    hide TransactionId, Receive, Deliver, Sound, Lineage, CreateClient, Reply, Reported, TidyArrival, ClientRequest,
         Succeeds, IsChallenge, Begin, NewTx, Plain, ClientKind;
    var id := TransactionId(a.response, fallback);
    if id in m.table {
      Handler(u, m, a, fallback, now);
      var o := m.table[id];
      DeliverLineage(u, m, id, a.response, now);
      var m1 := Deliver(u.timers, m, id, a.response, now);
      if IsChallenge(a.response) && Reported(m.objects[o], m1.objects[o]) {
        ReportedFinal(u.timers, m.objects[o], a.response, now);
        ReceivesRole(u.timers, m.objects[o], a.response, now);
        LineageAt(u, m1, o);
        var (auth, outcome) := Reply(u, m1.auth, m1.objects[o].request.value, a);
        AuthLineage(u, m1, auth);
        if outcome.Retry? {
          RetrySucceeds(u, m1.objects[o], m1.auth, a, again);
          ClientLineage(u, m1.(auth := auth), outcome.request, again, Some(o));
        }
      }
    }
  }

  /** Requests are sent as the source builds them, and challenges name their algorithm without outer white space. */
  predicate Tidy(u: Setup, h: Happening) {
    match h
    case AppSends(request, _) => Plain(request)
    case ResponseArrives(a, _, _) => TidyArrival(u.parse, a)
    case _ => true
  }

  lemma CleanRole(tx: Tx)
    requires tx.cleanups > 0
    ensures SameRole(tx, Clean(tx))
  {
  }

  lemma CleanupLineage(u: Setup, m: Manager, o: nat)
    requires Lineage(u, m) && o < |m.objects| && m.objects[o].cleanups > 0
    ensures Lineage(u, CleanupObject(m, o))
  {
    CleanRole(m.objects[o]);
    UpdateLineage(u, m, o, Clean(m.objects[o]));
    hide Succeeds, ClientRequest;
  }

  lemma NextLineage(u: Setup, m: Manager, h: Happening, now: real)
    requires Sound(m) && Lineage(u, m) && Possible(m, h) && Tidy(u, h)
    ensures Lineage(u, Next(u, m, h, now))
  {
    hide CreateClient, RequestIn, ResponseIn, CleanupObject, Step, AnswerFinal, Keeps, Enabled, SameRole, Sound,
         Lineage, Plain, TidyArrival, Update;
    match h
    case AppSends(request, fallback) => ClientLineage(u, m, request, fallback, None);
    case RequestArrives(request, fallback, again) => RequestLineage(u, m, request, fallback, again, now);
    case ResponseArrives(a, fallback, again) => ResponseLineage(u, m, a, fallback, again, now);
    case CredentialsAdded(realm, user, password) => AuthLineage(u, m, Next(u, m, h, now).auth);
    case AppAnswers(id, status, response) =>
      if id in m.table && m.table[id] < |m.objects| {
        var o := m.table[id];
        FinalKeeps(u.timers, m.objects[o], status, response, now);
        KeptRole(m.objects[o], AnswerFinal(u.timers, m.objects[o], status, response, now));
        UpdateLineage(u, m, o, AnswerFinal(u.timers, m.objects[o], status, response, now));
      }
    case Internal(o, e) =>
      StepKeeps(u.timers, m.objects[o], e, now);
      KeptRole(m.objects[o], Step(u.timers, m.objects[o], e, now));
      UpdateLineage(u, m, o, Step(u.timers, m.objects[o], e, now));
    case Cleanup(o) => CleanupLineage(u, m, o);
  }

  predicate TidyHistory(u: Setup, hs: seq<Occurrence>) { forall i | 0 <= i < |hs| :: Tidy(u, hs[i].what) }

  lemma {:induction false} HistoryLineage(u: Setup, m: Manager, hs: seq<Occurrence>)
    requires Sound(m) && Lineage(u, m) && IsHistory(u, m, hs) && TidyHistory(u, hs)
    ensures Lineage(u, Following(u, m, hs))
    decreases |hs|
  {
    hide Sound, Lineage, Next, Possible, Tidy;
    if hs != [] {
      assert Tidy(u, hs[0].what);
      NextSound(u, m, hs[0].what, hs[0].time);
      NextLineage(u, m, hs[0].what, hs[0].time);
      HistoryLineage(u, Next(u, m, hs[0].what, hs[0].time), hs[1..]);
    }
  }

  // ---------- Lines of successors ----------

  /** Each transaction of the line is the successor of the one before. */
  predicate IsLine(m: Manager, line: seq<nat>) {
    && line != [] && |m.parents| == |m.objects|
    && (forall i | 0 <= i < |line| :: line[i] < |m.objects|)
    && (forall i | 0 < i < |line| :: m.parents[line[i]] == Some(line[i - 1]))
  }

  /** `q` sends the request of `p` after k retries. */
  predicate Descends(p: Tx, q: Tx, k: nat) {
    p.request.Some? && q.request.Some? && q.kind == p.kind && Moved(p.request.value, q.request.value, k, q.id)
  }

  lemma SucceedsOnce(u: Setup, p: Tx, q: Tx)
    requires Succeeds(u, p, q)
    ensures Descends(p, q, 1)
  {
    hide Retried, Moved, HandleChallenge, Given;
    var response, auth, cnonce :| AnsweredBy(u, p, q, response, auth, cnonce);
    var header := HandleChallenge(u.hash, u.parse, auth, response, p.request.value, cnonce).1;
    GivenSome(header);
    MovedOnce(p.request.value, q.request.value, response.start.status, header.value, q.id);
  }

  lemma SucceedsOn(u: Setup, r: Tx, p: Tx, q: Tx, k: nat)
    requires Descends(r, p, k) && Succeeds(u, p, q)
    ensures Descends(r, q, k + 1)
  {
    hide Retried, Moved, HandleChallenge, Given;
    var response, auth, cnonce :| AnsweredBy(u, p, q, response, auth, cnonce);
    var header := HandleChallenge(u.hash, u.parse, auth, response, p.request.value, cnonce).1;
    GivenSome(header);
    MovedOn(r.request.value, p.request.value, q.request.value, k, p.id, response.start.status, header.value, q.id);
  }

  lemma {:induction false} LineDescends(u: Setup, m: Manager, line: seq<nat>)
    requires Lineage(u, m) && IsLine(m, line) && |line| > 1
    ensures Descends(m.objects[line[0]], m.objects[line[|line| - 1]], |line| - 1)
    decreases |line|
  {
    hide Succeeds, Descends, ClientRequest;
    var k := |line| - 1;
    var p := line[k - 1];
    assert m.parents[line[k]] == Some(p);
    if k == 1 {
      SucceedsOnce(u, m.objects[p], m.objects[line[k]]);
    } else {
      var init := line[..k];
      assert IsLine(m, init);
      LineDescends(u, m, init);
      SucceedsOn(u, m.objects[line[0]], m.objects[p], m.objects[line[k]], k - 1);
    }
  }

  /**
   * In every history, along any line of k successors: the last one sends the first request with its
   * CSeq moved on by k and one Via, whose branch is the last one's id iff the first Via could be
   * renewed, all other headers, the body and the kind being the same; and each link answers the very
   * challenge that the transaction before it reported.
   */
  lemma Generations(u: Setup, hs: seq<Occurrence>, line: seq<nat>)
    requires IsHistory(u, NO_TRANSACTIONS, hs) && TidyHistory(u, hs)
    requires IsLine(Following(u, NO_TRANSACTIONS, hs), line)
    ensures var m := Following(u, NO_TRANSACTIONS, hs);
      && (|line| > 1 ==> Descends(m.objects[line[0]], m.objects[line[|line| - 1]], |line| - 1))
      && (forall i | 0 < i < |line| :: Succeeds(u, m.objects[line[i - 1]], m.objects[line[i]]))
  {
    hide IsHistory, Following, TidyHistory, Succeeds, Descends, ClientRequest;
    HistoryLineage(u, NO_TRANSACTIONS, hs);
    var m := Following(u, NO_TRANSACTIONS, hs);
    if |line| > 1 { LineDescends(u, m, line); }
    forall i | 0 < i < |line| ensures Succeeds(u, m.objects[line[i - 1]], m.objects[line[i]]) {
      assert m.parents[line[i]] == Some(line[i - 1]);
    }
  }
}
