/**
 * The transaction manager of a user agent and its authenticator (tinysip/fsm.py), with every
 * transaction ever created. A transaction that has left the table lives on while it has timers or
 * suspended calls, so the objects are kept in order of creation and the table maps an id to one.
 */
module TransactionTable {
  import opened Text
  import opened SipMessages
  import opened Transactions
  import opened ViaBranch
  import opened DigestAuth

  /** What a user agent works with: timer values, the hash and the reader of challenge headers. */
  datatype Setup = Setup(timers: Config, hash: Hash, parse: ParseChallenge)

  /** `parents[o]` is the transaction whose challenge made the user agent create `o`. */
  datatype Manager = Manager(objects: seq<Tx>, parents: seq<Option<nat>>, table: map<string, nat>, auth: Auth)

  const NO_TRANSACTIONS: Manager := Manager([], [], map[], Auth(map[], map[]))

  function Create(m: Manager, id: string, kind: Kind, request: Message, parent: Option<nat>): Manager {
    Manager(m.objects + [Begin(NewTx(id, kind), request)], m.parents + [parent], m.table[id := |m.objects|], m.auth)
  }

  function Update(m: Manager, o: nat, tx: Tx): Manager
    requires o < |m.objects|
  {
    m.(objects := m.objects[o := tx])
  }

  predicate IsInvite(m: Message) { m.start.Request? && m.start.verb == INVITE }

  function ClientKind(request: Message): Kind { if IsInvite(request) then InviteClient else NonInviteClient }

  function ServerKind(request: Message): Kind { if IsInvite(request) then InviteServer else NonInviteServer }

  function CreateClient(m: Manager, request: Message, fallback: string, parent: Option<nat>): Manager {
    var id := TransactionId(request, fallback);
    if id in m.table then m
    else Create(m, id, ClientKind(request), request, parent)
  }

  function CreateServer(c: Config, m: Manager, request: Message, fallback: string, now: real): Manager {
    var id := TransactionId(request, fallback);
    if id in m.table then Deliver(c, m, id, request, now)
    else Create(m, id, ServerKind(request), request, None)
  }

  /** The transaction stored under `id` processes a message. */
  function Deliver(c: Config, m: Manager, id: string, message: Message, now: real): Manager
    requires id in m.table
  {
    var o := m.table[id];
    if o < |m.objects| then Update(m, o, Receive(c, m.objects[o], message, now)) else m
  }

  /** An ACK goes to the transaction of its branch; anything else, or a stray ACK, is a server request. */
  function RequestIn(c: Config, m: Manager, request: Message, fallback: string, again: string, now: real): Manager {
    var id := TransactionId(request, fallback);
    if request.start.Request? && request.start.verb == ACK && id in m.table then Deliver(c, m, id, request, now)
    else CreateServer(c, m, request, again, now)
  }

  /** The step made the transaction report this final response. */
  predicate Reported(before: Tx, after: Tx) {
    |after.log| == |before.log| + 1 && after.log[|before.log|].Final?
  }

  predicate IsChallenge(response: Message) { response.start.Response? && response.start.status in {401, 407} }

  /** What the authenticator makes of a challenge to this request: its new counts and the outcome. */
  function Reply(u: Setup, auth: Auth, request: Message, a: Arrival): (Auth, Outcome) {
    Authenticate(u.hash, u.parse, auth, request, a.response, a.branch, a.cnonce)
  }

  /**
   * The user agent looks up the transaction that reported a challenge and sends its request again
   * with credentials, if it can make them.
   */
  function HandleChallenged(u: Setup, m: Manager, id: string, a: Arrival, again: string): Manager {
    if id !in m.table || m.table[id] >= |m.objects| || m.objects[m.table[id]].request.None? then m
    else
      var (auth, outcome) := Reply(u, m.auth, m.objects[m.table[id]].request.value, a);
      var told := m.(auth := auth);
      if outcome.Retry? then CreateClient(told, outcome.request, again, Some(m.table[id])) else told
  }

  /** A response goes to the transaction of its branch; a challenge that one reports is handled at once. */
  function ResponseIn(u: Setup, m: Manager, a: Arrival, fallback: string, again: string, now: real): Manager {
    var id := TransactionId(a.response, fallback);
    if id !in m.table || m.table[id] >= |m.objects| then m
    else
      var o := m.table[id];
      var m1 := Deliver(u.timers, m, id, a.response, now);
      if IsChallenge(a.response) && Reported(m.objects[o], m1.objects[o]) then
        HandleChallenged(u, m1, m1.objects[o].id, a, again)
      else m1
  }

  function Answer(c: Config, m: Manager, id: string, status: int, response: Message, now: real): Manager {
    if id in m.table && m.table[id] < |m.objects| then
      Update(m, m.table[id], AnswerFinal(c, m.objects[m.table[id]], status, response, now))
    else m
  }

  /** Cleanup of a transaction also removes whatever the table holds under its id. */
  function CleanupObject(m: Manager, o: nat): Manager
    requires o < |m.objects| && m.objects[o].cleanups > 0
  {
    Update(m, o, Clean(m.objects[o])).(table := m.table - {m.objects[o].id})
  }

  // ---------- Runs ----------

  datatype Happening =
    | AppSends(request: Message, fallback: string)
    | RequestArrives(request: Message, fallback: string, again: string)
    | ResponseArrives(arrival: Arrival, fallback: string, again: string)
    | CredentialsAdded(realm: string, user: string, password: string)
    | AppAnswers(id: string, status: int, response: Message)
    | Internal(o: nat, event: Event)
    | Cleanup(o: nat)

  /** What a transaction does by itself: a suspended call returns, a timer fires. */
  predicate IsInternal(e: Event) { e.StartReturns? || e.FinishReturns? || e.Fires? }

  predicate Possible(m: Manager, h: Happening) {
    match h
    case Internal(o, e) => o < |m.objects| && IsInternal(e) && Enabled(m.objects[o], e)
    case Cleanup(o) => o < |m.objects| && m.objects[o].cleanups > 0
    case _ => true
  }

  function Next(u: Setup, m: Manager, h: Happening, now: real): Manager
    requires Possible(m, h)
  {
    match h
    case AppSends(request, fallback) => CreateClient(m, request, fallback, None)
    case RequestArrives(request, fallback, again) => RequestIn(u.timers, m, request, fallback, again, now)
    case ResponseArrives(a, fallback, again) => ResponseIn(u, m, a, fallback, again, now)
    case CredentialsAdded(realm, user, password) =>
      m.(auth := m.auth.(credentials := m.auth.credentials[realm := (user, password)]))
    case AppAnswers(id, status, response) => Answer(u.timers, m, id, status, response, now)
    case Internal(o, e) => Update(m, o, Step(u.timers, m.objects[o], e, now))
    case Cleanup(o) => CleanupObject(m, o)
  }

  datatype Occurrence = When(what: Happening, time: real)

  predicate IsHistory(u: Setup, m: Manager, hs: seq<Occurrence>)
    decreases |hs|
  {
    hs == [] || (Possible(m, hs[0].what) && IsHistory(u, Next(u, m, hs[0].what, hs[0].time), hs[1..]))
  }

  function Following(u: Setup, m: Manager, hs: seq<Occurrence>): Manager
    requires IsHistory(u, m, hs)
    decreases |hs|
  {
    if hs == [] then m else Following(u, Next(u, m, hs[0].what, hs[0].time), hs[1..])
  }
}
