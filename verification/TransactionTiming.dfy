/** When a client sends and when it gives up, on a clock whose timers fire exactly on time. */
module TransactionTiming {
  import opened Text
  import opened SipMessages
  import opened Transactions
  import opened TransactionSafety
  import opened TransactionTimers

  /** Time does not run back, no pending timer is passed over, and a timer fires at its deadline. */
  predicate OnTime(tx: Tx, m: Moment, now: real) {
    && now <= m.time
    && (forall t | t in tx.timers :: m.time <= tx.timers[t])
    && (m.event.Fires? && m.event.timer in tx.timers ==> m.time == tx.timers[m.event.timer])
  }

  predicate RunsOnTime(c: Config, tx: Tx, run: seq<Moment>, now: real)
    requires IsRun(c, tx, run)
    decreases |run|
  {
    run == []
    || (OnTime(tx, run[0], now) && RunsOnTime(c, Step(c, tx, run[0].event, run[0].time), run[1..], run[0].time))
  }

  function Repeat(k: Kind): Timer { if k == InviteClient then TimerA else TimerE }

  function GiveUp(k: Kind): Timer { if k == InviteClient then TimerB else TimerF }

  /** When the retransmission timer goes off after k retransmissions, counted from the first send. */
  function Due(c: Config, k: nat): real {
    if k == 0 then c.T1 else Due(c, k - 1) + c.Backoff(k)
  }

  /** When a client without any answer ends, counted from the first send. */
  function Limit(c: Config): real {
    if Due(c, MAX_RETRANSMISSIONS) < 64.0 * c.T1 then Due(c, MAX_RETRANSMISSIONS) else 64.0 * c.T1
  }

  // ---------- A silent peer ----------

  /** A client that started at `t0` and heard nothing: both deadlines and the sends are fixed by the count. */
  predicate Unanswered(c: Config, tx: Tx, t0: real) {
    && tx.kind.IsClient() && tx.state == Trying && tx.request.Some? && !tx.starting
    && tx.count <= MAX_RETRANSMISSIONS
    && tx.timers == map[Repeat(tx.kind) := t0 + Due(c, tx.count), GiveUp(tx.kind) := t0 + 64.0 * c.T1]
    && Requests(tx.log) == tx.count + 1
  }

  lemma {:induction false} DueRises(c: Config, k: nat, n: nat)
    requires c.T1 >= 0.0 && c.T2 >= 0.0 && k <= n
    ensures Due(c, k) <= Due(c, n)
    decreases n
  {
    if k < n { DueRises(c, k, n - 1); }
  }

  lemma RepeatStep(c: Config, tx: Tx, now: real, t0: real)
    requires Unanswered(c, tx, t0) && tx.count < MAX_RETRANSMISSIONS && now == t0 + Due(c, tx.count)
    ensures var end := Fire(c, tx, Repeat(tx.kind), now); Unanswered(c, end, t0) && end.count == tx.count + 1
  {
    var t := Repeat(tx.kind);
    FireSends(c, tx, t, now);
    var end := Fire(c, tx, t, now);
    assert Due(c, tx.count + 1) == Due(c, tx.count) + c.Backoff(tx.count + 1);
    hide Config.Backoff, Requests, Due;
    assert end.timers[t] == t0 + Due(c, end.count);
    assert end.timers == map[t := t0 + Due(c, end.count), GiveUp(tx.kind) := t0 + 64.0 * c.T1];
  }

  /** One timer on time: the next retransmission at its place in the schedule, or the end at the limit. */
  lemma UnansweredStep(c: Config, tx: Tx, m: Moment, now: real, t0: real)
    requires c.T1 >= 0.0 && c.T2 >= 0.0
    requires Unanswered(c, tx, t0) && m.event.Fires? && Enabled(tx, m.event) && OnTime(tx, m, now)
    ensures var end := Step(c, tx, m.event, m.time);
      if end.state == Terminated then m.time == t0 + Limit(c)
      else Unanswered(c, end, t0) && end.count == tx.count + 1 && m.time == t0 + Due(c, tx.count)
  {
    var t := m.event.timer;
    var r, g := Repeat(tx.kind), GiveUp(tx.kind);
    assert t == r || t == g;
    assert tx.timers[r] == t0 + Due(c, tx.count) && tx.timers[g] == t0 + 64.0 * c.T1;
    assert m.time <= tx.timers[r] && m.time <= tx.timers[g];
    DueRises(c, tx.count, MAX_RETRANSMISSIONS);
    hide Due, Config.Backoff, Requests;
    if t == r && tx.count < MAX_RETRANSMISSIONS {
      RepeatStep(c, tx, m.time, t0);
    }
  }

  /**
   * Against a silent peer, after n timer firings a client that has not ended has retransmitted n
   * times, the last time at its place in the schedule.
   */
  lemma {:induction false} SilentPeer(c: Config, tx: Tx, run: seq<Moment>, now: real, t0: real)
    requires c.T1 >= 0.0 && c.T2 >= 0.0
    requires Unanswered(c, tx, t0) && IsRun(c, tx, run) && FiresOnly(run) && RunsOnTime(c, tx, run, now)
    ensures var end := After(c, tx, run);
      || end.state == Terminated
      || (&& Unanswered(c, end, t0) && end.count == tx.count + |run|
          && (run != [] ==> run[|run| - 1].time == t0 + Due(c, end.count - 1)))
    decreases |run|
  {
    hide Step, Enabled, OnTime, Unanswered, Due;
    if run != [] {
      var next := Step(c, tx, run[0].event, run[0].time);
      UnansweredStep(c, tx, run[0], now, t0);
      assert FiresOnly(run[1..]);
      if next.state == Terminated { RunRank(c, next, run[1..]); }
      else { SilentPeer(c, next, run[1..], run[0].time, t0); }
    }
  }

  /** The firing that ends it comes exactly at the limit. */
  lemma SilentPeerEnds(c: Config, tx: Tx, run: seq<Moment>, last: Moment, now: real, t0: real)
    requires c.T1 >= 0.0 && c.T2 >= 0.0
    requires Unanswered(c, tx, t0) && IsRun(c, tx, run) && FiresOnly(run) && RunsOnTime(c, tx, run, now)
    requires var end := After(c, tx, run);
      && end.state != Terminated && last.event.Fires? && Enabled(end, last.event)
      && OnTime(end, last, if run == [] then now else run[|run| - 1].time)
    ensures Step(c, After(c, tx, run), last.event, last.time).state == Terminated ==> last.time == t0 + Limit(c)
  {
    hide Step, Enabled, OnTime, Unanswered, Due, Limit;
    SilentPeer(c, tx, run, now, t0);
    UnansweredStep(c, After(c, tx, run), last, if run == [] then now else run[|run| - 1].time, t0);
  }

  /** Nine timer firings are enough to end it. */
  lemma SilentPeerGivesUp(c: Config, tx: Tx, run: seq<Moment>, t0: real)
    requires Unanswered(c, tx, t0) && IsRun(c, tx, run) && FiresOnly(run) && |run| >= 9
    ensures After(c, tx, run).state == Terminated
  {
    var r, g := Repeat(tx.kind), GiveUp(tx.kind);
    assert r in tx.timers && Decisive(r);
    assert |tx.timers| == 2 by {
      assert tx.timers.Keys == {r, g};
      assert |tx.timers| == |tx.timers.Keys|;
    }
    TimersTerminate(c, tx, run);
    EndingFuel(After(c, tx, run));
  }

  lemma EndingFuel(tx: Tx)
    ensures Ending(tx) ==> Fuel(tx) > 0
  {
    if Ending(tx) {
      var t :| t in tx.timers && Decisive(t);
      assert tx.timers != map[];
    }
  }

  /** With the default ratio T2 = 8 * T1 the limit is 47 * T1. */
  lemma DefaultLimit(c: Config)
    requires c.T1 > 0.0 && c.T2 == 8.0 * c.T1
    ensures Limit(c) == 47.0 * c.T1
  {
    assert Pow2(1) == 2;
    assert Pow2(2) == 4;
    assert Pow2(3) == 8;
    forall k: nat | 3 <= k <= 7 ensures c.Backoff(k) == 8.0 * c.T1 { Pow2AtLeast(k); }
    assert Due(c, 0) == c.T1;
    assert Due(c, 1) == 3.0 * c.T1;
    assert Due(c, 2) == 7.0 * c.T1;
    assert Due(c, 3) == 15.0 * c.T1;
    assert Due(c, 4) == 23.0 * c.T1;
    assert Due(c, 5) == 31.0 * c.T1;
    assert Due(c, 6) == 39.0 * c.T1;
    assert Due(c, 7) == 47.0 * c.T1;
  }

  lemma {:induction false} Pow2AtLeast(k: nat)
    requires k >= 3
    ensures Pow2(k) >= 8
  {
    if k == 3 {
      assert Pow2(1) == 2 && Pow2(2) == 4;
    } else {
      Pow2AtLeast(k - 1);
    }
  }

  /** A client after its first send returned at `t0`. */
  function Started(c: Config, id: string, k: Kind, request: Message, t0: real): Tx
    requires k.IsClient()
  {
    ArmStart(c, Begin(NewTx(id, k), request), t0)
  }

  lemma StartedIs(c: Config, id: string, k: Kind, request: Message, t0: real)
    requires k.IsClient()
    ensures var tx := Started(c, id, k, request, t0);
      && tx.kind == k && tx.state == Trying && tx.request == Some(request)
      && !tx.starting && tx.finishing.None? && tx.count == 0
      && tx.timers == map[Repeat(k) := t0 + c.T1, GiveUp(k) := t0 + 64.0 * c.T1]
      && tx.log == [SendRequest(request)]
  {
    assert [] + [SendRequest(request)] == [SendRequest(request)];
  }

  /** Starting and arming at `t0` gives a client the two bounds apply to. */
  lemma StartUnanswered(c: Config, id: string, k: Kind, request: Message, t0: real)
    requires k.IsClient()
    ensures Unanswered(c, Started(c, id, k, request, t0), t0) && Pending(c, Started(c, id, k, request, t0), t0)
  {
    StartedIs(c, id, k, request, t0);
    hide Started, Requests;
    Appended([], SendRequest(request));
    assert [] + [SendRequest(request)] == [SendRequest(request)];
    assert Requests([]) == 0 by { NoRequests(); }
  }

  lemma NoRequests()
    ensures Requests([]) == 0
  {
  }

  // ---------- A peer that only ever answers provisionally ----------

  predicate Pending(c: Config, tx: Tx, t0: real) {
    && tx.kind.IsClient() && tx.state in {Trying, Proceeding} && !tx.starting && tx.finishing.None?
    && GiveUp(tx.kind) in tx.timers && tx.timers[GiveUp(tx.kind)] == t0 + 64.0 * c.T1
  }

  predicate Stalls(e: Event) {
    e.Fires? || (e.Arrives? && e.message.start.Response? && e.message.start.status <= 199)
  }

  lemma PendingReceive(c: Config, tx: Tx, m: Message, now: real, t0: real)
    requires Pending(c, tx, t0) && m.start.Response? && m.start.status <= 199
    ensures Pending(c, Receive(c, tx, m, now), t0)
  {
    hide InviteServerReceive;
  }

  lemma PendingFire(c: Config, tx: Tx, t: Timer, now: real, t0: real)
    requires Pending(c, tx, t0)
    ensures var end := Fire(c, tx, t, now); end.state == Terminated || Pending(c, end, t0)
  {
    hide Config.Backoff;
  }

  /** A client that gets only provisional responses, or none, has ended by 64 * T1 after its first send. */
  lemma {:induction false} ProvisionalPeer(c: Config, tx: Tx, run: seq<Moment>, now: real, t0: real)
    requires Pending(c, tx, t0) && IsRun(c, tx, run) && RunsOnTime(c, tx, run, now)
    requires forall i | 0 <= i < |run| :: Stalls(run[i].event)
    ensures var end := After(c, tx, run);
      end.state == Terminated || (Pending(c, end, t0) && (run != [] ==> run[|run| - 1].time <= t0 + 64.0 * c.T1))
    decreases |run|
  {
    if run != [] {
      var m := run[0];
      var next := Step(c, tx, m.event, m.time);
      assert Stalls(m.event);
      assert m.time <= tx.timers[GiveUp(tx.kind)];
      hide Receive, Fire;
      if m.event.Fires? { PendingFire(c, tx, m.event.timer, m.time, t0); }
      else { PendingReceive(c, tx, m.event.message, m.time, t0); }
      assert next.state == Terminated || Pending(c, next, t0);
      hide Step, Enabled, OnTime, Pending, Stalls;
      if next.state == Terminated { RunRank(c, next, run[1..]); }
      else { ProvisionalPeer(c, next, run[1..], m.time, t0); }
    }
  }
}
