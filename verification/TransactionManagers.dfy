/**
 * The transaction manager object with the authenticator of its user agent, performing the steps of
 * the manager model on transaction objects.
 */
module TransactionManagers {
  import opened Text
  import opened SipMessages
  import opened Transactions
  import opened ViaBranch
  import opened DigestAuth
  import opened TransactionTable

  ghost function Views(all: seq<SipTransaction>): (r: seq<Tx>)
    reads all
    ensures |r| == |all|
    ensures forall i | 0 <= i < |all| :: r[i] == all[i].View()
  {
    seq(|all|, i requires 0 <= i < |all| reads all => all[i].View())
  }

  lemma DeliverTable(c: Config, m: Manager, id: string, message: Message, now: real)
    requires id in m.table
    ensures var n := Deliver(c, m, id, message, now);
      n.table == m.table && |n.objects| == |m.objects| && n.parents == m.parents && n.auth == m.auth
  {
    hide Receive;
  }

  class TransactionManager {
    const setup: Setup
    const authenticator: DigestAuthentication
    var transactions: map<string, SipTransaction>
    /** Every transaction ever created, and where each table entry stands among them. */
    ghost var all: seq<SipTransaction>
    ghost var parents: seq<Option<nat>>
    ghost var index: map<string, nat>

    ghost predicate Valid()
      reads this
    {
      && (forall i, j | 0 <= i < j < |all| :: all[i] != all[j])
      && (forall i | 0 <= i < |all| :: all[i].config == setup.timers)
      && index.Keys == transactions.Keys
      && (forall id | id in index :: index[id] < |all| && all[index[id]] == transactions[id])
    }

    ghost function View(): Manager
      reads this, all, authenticator
    {
      Manager(Views(all), parents, index, authenticator.View())
    }

    constructor (setup: Setup)
      ensures Valid() && View() == NO_TRANSACTIONS && all == [] && this.setup == setup && fresh(authenticator)
    {
      this.setup := setup;
      authenticator := new DigestAuthentication();
      transactions, all, parents, index := map[], [], [], map[];
    }

    method Add(id: string, kind: Kind, request: Message, ghost parent: Option<nat>)
      requires Valid()
      modifies this
      ensures Valid() && View() == Create(old(View()), id, kind, request, parent)
      ensures old(all) < all && |all| == |old(all)| + 1 && fresh(all[|old(all)|])
    {
      hide Begin, NewTx, Views;
      ghost var was := Views(all);
      var tx := new SipTransaction(id, kind, setup.timers);
      tx.Start(request);
      assert Views(all + [tx]) == was + [tx.View()] by {
        assert forall i | 0 <= i < |was| :: all[i].View() == was[i];
      }
      Record(id, tx, parent);
    }

    method Record(id: string, tx: SipTransaction, ghost parent: Option<nat>)
      requires Valid() && tx !in all && tx.config == setup.timers
      modifies this
      ensures Valid()
      ensures all == old(all) + [tx] && parents == old(parents) + [parent] && index == old(index)[id := |old(all)|]
    {
      index := index[id := |all|];
      transactions := transactions[id := tx];
      all, parents := all + [tx], parents + [parent];
    }

    method CreateClientTransaction(request: Message, fallback: string, ghost parent: Option<nat>) returns (id: string)
      requires Valid()
      modifies this
      ensures Valid() && View() == CreateClient(old(View()), request, fallback, parent)
      ensures id == TransactionId(request, fallback) && id in transactions
    {
      hide TransactionId, Begin, NewTx, Views;
      id := TransactionId(request, fallback);
      if id in transactions { return; }
      if IsInvite(request) {
        Add(id, InviteClient, request, parent);
      } else {
        Add(id, NonInviteClient, request, parent);
      }
    }

    /** The transaction stored under `id` processes a message; says whether it reported it as final. */
    method Dispatch(id: string, m: Message, now: real) returns (reported: bool)
      requires Valid() && id in transactions
      modifies all
      ensures Valid() && View() == Deliver(setup.timers, old(View()), id, m, now)
      ensures unchanged(this)
      ensures reported == Reported(old(View()).objects[index[id]], View().objects[index[id]])
    {
      hide Receive, Views;
      var tx := transactions[id];
      ghost var o := index[id];
      var seen := |tx.log|;
      tx.ProcessMessage(m, now);
      assert Views(all) == old(Views(all))[o := tx.View()];
      reported := |tx.log| == seen + 1 && tx.log[seen].Final?;
    }

    method CreateServerTransaction(request: Message, fallback: string, now: real) returns (id: string)
      requires Valid()
      modifies this, all
      ensures Valid() && View() == CreateServer(setup.timers, old(View()), request, fallback, now)
      ensures id == TransactionId(request, fallback) && id in transactions
    {
      hide Receive, TransactionId, Begin, NewTx, Views;
      id := TransactionId(request, fallback);
      if id in transactions {
        var _ := Dispatch(id, request, now);
      } else if IsInvite(request) {
        Add(id, InviteServer, request, None);
      } else {
        Add(id, NonInviteServer, request, None);
      }
    }

    method ProcessRequest(request: Message, fallback: string, again: string, now: real) returns (id: string)
      requires Valid()
      modifies this, all
      ensures Valid() && View() == RequestIn(setup.timers, old(View()), request, fallback, again, now)
      ensures id in transactions
    {
      hide Receive, TransactionId, Begin, NewTx, Views;
      if request.start.Request? && request.start.verb == ACK {
        id := TransactionId(request, fallback);
        if id in transactions {
          var _ := Dispatch(id, request, now);
          return;
        }
      }
      id := CreateServerTransaction(request, again, now);
    }

    /** The challenge handler of the user agent. */
    method HandleAuthenticationChallenge(txId: string, a: Arrival, again: string)
      requires Valid()
      modifies this, authenticator
      ensures Valid() && View() == HandleChallenged(setup, old(View()), txId, a, again)
    {
      hide TransactionId, CreateClient, Views, Authenticate;
      if txId !in transactions { return; }
      var tx := transactions[txId];
      ghost var o, before := index[txId], View();
      assert before.objects[o] == tx.View();
      if tx.request.None? { return; }
      var outcome := authenticator.CreateAuthenticatedRequest(setup.hash, setup.parse, tx.request.value, a.response,
                                                              a.branch, a.cnonce);
      assert View() == before.(auth := authenticator.View());
      if outcome.Retry? {
        var newId := CreateClientTransaction(outcome.request, again, Some(o));
      }
    }

    method ProcessResponse(a: Arrival, fallback: string, again: string, now: real)
      requires Valid()
      modifies this, all, authenticator
      ensures Valid() && View() == ResponseIn(setup, old(View()), a, fallback, again, now)
    {
      hide TransactionId, Deliver, CreateClient, Views, Reported, HandleChallenged;
      var id := TransactionId(a.response, fallback);
      if id !in transactions { return; }
      ghost var before := View();
      var tx := transactions[id];
      var reported := Dispatch(id, a.response, now);
      DeliverTable(setup.timers, before, id, a.response, now);
      if IsChallenge(a.response) && reported { HandleAuthenticationChallenge(tx.id, a, again); }
    }

    method AddCredentials(realm: string, user: string, password: string)
      requires Valid()
      modifies authenticator
      ensures Valid() && Possible(old(View()), CredentialsAdded(realm, user, password))
      ensures View() == Next(setup, old(View()), CredentialsAdded(realm, user, password), 0.0)
    {
      hide Views;
      authenticator.AddCredentials(realm, user, password);
    }

    method SendResponse(id: string, status: int, response: Message, now: real)
      requires Valid()
      modifies all
      ensures Valid() && View() == Answer(setup.timers, old(View()), id, status, response, now)
      ensures unchanged(this)
    {
      hide InviteServerFinal, Respond, Views;
      if id !in transactions { return; }
      var tx := transactions[id];
      ghost var o := index[id];
      if tx.kind.IsClient() {
        assert old(View()).objects[o] == tx.View();
        assert Views(all) == old(Views(all))[o := tx.View()];
        return;
      }
      tx.SendFinalResponse(status, response, now);
      assert Views(all) == old(Views(all))[o := tx.View()];
    }

    /** The cleanup task of the o-th transaction: its timers go, and the entry under its id. */
    method CleanupTransaction(tx: SipTransaction, ghost o: nat)
      requires Valid() && o < |all| && all[o] == tx && tx.cleanups > 0
      modifies this, tx
      ensures Valid() && View() == CleanupObject(old(View()), o)
    {
      hide Views;
      tx.Cleanup();
      assert Views(all) == old(Views(all))[o := tx.View()];
      Forget(tx.id);
    }

    method Forget(id: string)
      requires Valid()
      modifies this
      ensures Valid() && all == old(all) && parents == old(parents) && index == old(index) - {id}
    {
      index := index - {id};
      transactions := transactions - {id};
    }
  }
}
