/** A history in which a timer ends a transaction a second time, and what its second cleanup removes. */
module DoubleCleanup {
  import opened Text
  import opened SipMessages
  import opened Transactions
  import opened ViaBranch
  import opened DigestAuth
  import opened TransactionTable
  import opened ManagerSafety
  import opened ManagerCleanup

  const ID: string := "z9hG4bK4d43c2ff8"
  const TOP: string := "SIP/2.0/UDP 10.0.0.1:5060;"

  /** A message of the transaction `ID`, with the headers every message must have. */
  function Branded(start: Start): Message {
    Message(start,
            [SipMessages.Header("Via", TOP + (BRANCH + ID)),
             SipMessages.Header("Max-Forwards", "70"),
             SipMessages.Header("From", "<sip:alice@example.com>;tag=1928301774"),
             SipMessages.Header("To", "<sip:bob@example.com>"),
             SipMessages.Header("Call-ID", "a84b4c76e66710@example.com"),
             SipMessages.Header("CSeq", "1 OPTIONS")], None)
  }

  const QUERY: Message := Branded(Request(OPTIONS, "sip:bob@example.com"))
  const TRYING: Message := Branded(Response(100, "Trying"))
  const OK: Message := Branded(Response(200, "OK"))

  /** When Timer F is due for a transaction started at time zero. */
  function Due(u: Setup): real { u.timers.Duration(TimerF) }

  /** The request is sent, answered with 100, and with 200 when Timer F is about to fire. */
  function Answering(u: Setup, rest: seq<Occurrence>): seq<Occurrence> {
    [When(AppSends(QUERY, ""), 0.0)] + ([When(Internal(0, StartReturns), 0.0)]
    + ([When(ResponseArrives(Arrival(TRYING, "", ""), "", ""), 0.0)]
    + ([When(ResponseArrives(Arrival(OK, "", ""), "", ""), Due(u))] + rest)))
  }

  /** Timer F fires before the cleanup; the application sends the request again between the two cleanups. */
  function Ending(u: Setup): seq<Occurrence> {
    [When(Internal(0, Fires(TimerF)), Due(u))] + ([When(Cleanup(0), Due(u))]
    + ([When(AppSends(QUERY, ""), Due(u))] + ([When(Cleanup(0), Due(u))] + [])))
  }

  function Story(u: Setup): seq<Occurrence> { Answering(u, Ending(u)) }

  lemma BrandedVia(start: Start)
    ensures Get(Branded(start).headers, "via") == Some(TOP + (BRANCH + ID))
  {
    assert Lower("Via") == Lower("via");
    hide Lower;
  }

  lemma QueryId(start: Start, fallback: string)
    ensures TransactionId(Branded(start), fallback) == ID
  {
    hide BranchOf, Get, Branded;
    BrandedVia(start);
    assert 'b' !in TOP;
    BranchSkip(TOP, BRANCH + ID);
    assert BRANCH + (ID + "") == BRANCH + ID;
    BranchRead(ID, "");
  }

  /** A history in front of which something happened. */
  lemma First(u: Setup, m: Manager, h: Occurrence, rest: seq<Occurrence>)
    requires Possible(m, h.what) && IsHistory(u, Next(u, m, h.what, h.time), rest)
    ensures IsHistory(u, m, [h] + rest)
    ensures Following(u, m, [h] + rest) == Following(u, Next(u, m, h.what, h.time), rest)
  {
    hide Next, Possible;
    var hs := [h] + rest;
    assert hs[0] == h && hs[1..] == rest;
  }

  // ---------- The states on the way ----------

  function Sent(): Tx { Begin(NewTx(ID, NonInviteClient), QUERY) }

  function Armed(u: Setup): Tx { ArmStart(u.timers, Sent(), 0.0) }

  function Pending(u: Setup): Tx { NonInviteClientReceive(Armed(u), TRYING) }

  function Answered(u: Setup): Tx { NonInviteClientReceive(Pending(u), OK) }

  function Twice(u: Setup): Tx
    requires TimerF in Answered(u).timers
  {
    Fire(u.timers, Answered(u), TimerF, Due(u))
  }

  /** The manager with that one transaction. */
  function Only(tx: Tx): Manager { Manager([tx], [None], map[ID := 0], Auth(map[], map[])) }

  lemma TimerStays(u: Setup)
    ensures Armed(u).timers.Keys == {TimerE, TimerF} && Armed(u).timers[TimerF] == Due(u)
    ensures Pending(u).state == Proceeding && TimerF in Pending(u).timers
    ensures Answered(u).state == Terminated && Answered(u).cleanups == 1
    ensures TimerF in Answered(u).timers && Answered(u).timers[TimerF] == Due(u)
    ensures Twice(u).state == Terminated && Twice(u).cleanups == 2 && Twice(u).id == ID
        && Twice(u).request == Some(QUERY)
  {
    assert TRYING.start.Response? && TRYING.start.status == 100 && OK.start.Response? && OK.start.status == 200;
    hide Branded, Config.Duration;
  }

  lemma Sending(u: Setup, now: real)
    ensures Next(u, NO_TRANSACTIONS, AppSends(QUERY, ""), now) == Only(Sent())
  {
    QueryId(QUERY.start, "");
    assert QUERY == Branded(QUERY.start) && !IsInvite(QUERY);
    hide Begin, NewTx, TransactionId, Branded;
    var none: map<string, nat> := map[];
    assert none[ID := 0] == map[ID := 0];
    assert [] + [Sent()] == [Sent()];
  }

  lemma Alone(u: Setup, tx: Tx, e: Event, now: real)
    requires IsInternal(e) && Enabled(tx, e)
    ensures Possible(Only(tx), Internal(0, e))
        && Next(u, Only(tx), Internal(0, e), now) == Only(Step(u.timers, tx, e, now))
  {
    hide Step, Enabled, IsInternal;
  }

  lemma Hearing(u: Setup, tx: Tx, start: Start, now: real)
    requires start.Response? && start.status in {100, 200} && tx.kind == NonInviteClient
    ensures Next(u, Only(tx), ResponseArrives(Arrival(Branded(start), "", ""), "", ""), now)
        == Only(NonInviteClientReceive(tx, Branded(start)))
  {
    QueryId(start, "");
    assert !IsChallenge(Branded(start));
    hide NonInviteClientReceive, TransactionId, Branded, Reported, HandleChallenged;
  }

  /** After the first cleanup, and after the request was sent again. */
  function Gone(tx: Tx): Manager { Manager([tx], [None], map[], Auth(map[], map[])) }

  function Resent(tx: Tx): Manager { Manager([tx, Sent()], [None, None], map[ID := 1], Auth(map[], map[])) }

  function Lost(tx: Tx): Manager { Manager([tx, Sent()], [None, None], map[], Auth(map[], map[])) }

  lemma Cleaning(u: Setup, tx: Tx, now: real)
    requires tx.cleanups == 2 && tx.id == ID
    ensures Possible(Only(tx), Cleanup(0)) && Next(u, Only(tx), Cleanup(0), now) == Gone(Clean(tx))
    ensures Possible(Gone(Clean(tx)), AppSends(QUERY, ""))
    ensures Next(u, Gone(Clean(tx)), AppSends(QUERY, ""), now) == Resent(Clean(tx))
    ensures Possible(Resent(Clean(tx)), Cleanup(0))
        && Next(u, Resent(Clean(tx)), Cleanup(0), now) == Lost(Clean(Clean(tx)))
  {
    QueryId(QUERY.start, "");
    assert QUERY == Branded(QUERY.start) && !IsInvite(QUERY);
    hide Begin, NewTx, TransactionId, Branded;
    var none: map<string, nat> := map[];
    assert none[ID := 1] == map[ID := 1];
    assert map[ID := 0] - {ID} == map[];
    assert map[ID := 1] - {ID} == map[];
    assert [Clean(tx)] + [Sent()] == [Clean(tx), Sent()];
  }

  lemma Firing(u: Setup)
    ensures TimerF in Answered(u).timers && Twice(u).cleanups == 2 && Twice(u).id == ID
    ensures Possible(Only(Answered(u)), Internal(0, Fires(TimerF)))
    ensures Next(u, Only(Answered(u)), Internal(0, Fires(TimerF)), Due(u)) == Only(Twice(u))
  {
    hide Answered, Only, Possible, Next, Due;
    TimerStays(u);
    Alone(u, Answered(u), Fires(TimerF), Due(u));
  }

  lemma EndingRuns(u: Setup)
    ensures TimerF in Answered(u).timers
    ensures IsHistory(u, Only(Answered(u)), Ending(u))
    ensures Following(u, Only(Answered(u)), Ending(u)) == Lost(Clean(Clean(Twice(u))))
  {
    hide Next, Possible, Only, Gone, Resent, Lost, Answered, Twice, Clean, Due, Sent, Branded;
    Firing(u);
    var tx, t := Twice(u), Due(u);
    Cleaning(u, tx, t);
    var m1, m2, m3 := Only(tx), Gone(Clean(tx)), Resent(Clean(tx));
    First(u, m3, When(Cleanup(0), t), []);
    First(u, m2, When(AppSends(QUERY, ""), t), [When(Cleanup(0), t)] + []);
    First(u, m1, When(Cleanup(0), t), [When(AppSends(QUERY, ""), t)] + ([When(Cleanup(0), t)] + []));
    First(u, Only(Answered(u)), When(Internal(0, Fires(TimerF)), t),
          [When(Cleanup(0), t)] + ([When(AppSends(QUERY, ""), t)] + ([When(Cleanup(0), t)] + [])));
  }

  lemma AnsweringRuns(u: Setup, rest: seq<Occurrence>)
    requires IsHistory(u, Only(Answered(u)), rest)
    ensures IsHistory(u, NO_TRANSACTIONS, Answering(u, rest))
    ensures Following(u, NO_TRANSACTIONS, Answering(u, rest)) == Following(u, Only(Answered(u)), rest)
  {
    var t := Due(u);
    Sending(u, 0.0);
    Alone(u, Sent(), StartReturns, 0.0);
    Hearing(u, Armed(u), TRYING.start, 0.0);
    Hearing(u, Pending(u), OK.start, t);
    hide Next, Only, Answered, Due, Sent, Armed, Pending, IsHistory, Following, ArmStart, Branded;
    var r3 := [When(ResponseArrives(Arrival(OK, "", ""), "", ""), t)] + rest;
    var r2 := [When(ResponseArrives(Arrival(TRYING, "", ""), "", ""), 0.0)] + r3;
    var r1 := [When(Internal(0, StartReturns), 0.0)] + r2;
    First(u, Only(Pending(u)), When(ResponseArrives(Arrival(OK, "", ""), "", ""), t), rest);
    First(u, Only(Armed(u)), When(ResponseArrives(Arrival(TRYING, "", ""), "", ""), 0.0), r3);
    First(u, Only(Sent()), When(Internal(0, StartReturns), 0.0), r2);
    First(u, NO_TRANSACTIONS, When(AppSends(QUERY, ""), 0.0), r1);
  }

  lemma LiveButLost(tx: Tx)
    ensures var m := Lost(tx); m.objects[1].id == ID && m.objects[1].state == Trying && ID !in m.table && !Owned(m)
  {
    assert !Owns(Lost(tx), 1);
  }

  /**
   * Timer F of a non-INVITE client is left running by a 200 out of PROCEEDING (fsm.py). When it fires
   * before the cleanup the transaction is cleaned up twice, and the second cleanup removes the
   * running transaction that has the id by then: its responses find no transaction.
   */
  lemma SecondCleanupRemovesLive(u: Setup, a: Arrival, fallback: string, again: string, now: real)
    requires TransactionId(a.response, fallback) == ID
    ensures IsHistory(u, NO_TRANSACTIONS, Story(u)) && !PromptHistory(u, NO_TRANSACTIONS, Story(u))
    ensures var end := Following(u, NO_TRANSACTIONS, Story(u));
      && |end.objects| == 2 && end.objects[1].id == ID && end.objects[1].state == Trying
      && ID !in end.table
      && ResponseIn(u, end, a, fallback, again, now) == end
  {
    hide Answering, Ending, IsHistory, Following, Only, Answered, Twice, PromptHistory, AlwaysOwned, TransactionId,
         Sound, Owned, Branded;
    EndingRuns(u);
    AnsweringRuns(u, Ending(u));
    var tx := Clean(Clean(Twice(u)));
    LiveButLost(tx);
    NothingYet();
    OwnedFrom(u, NO_TRANSACTIONS, Story(u));
  }
}
