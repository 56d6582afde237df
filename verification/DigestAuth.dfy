/**
 * Digest authentication (tinysip/auth.py). The hash, the parsing of a challenge header, the client
 * nonce and the new branch are parameters.
 */
module DigestAuth {
  import opened Text
  import opened SipMessages
  import opened ViaBranch

  type Hash = (string, string) -> string
  type ParseChallenge = string -> map<string, string>

  /** Credentials per realm (user name, password) and how often each nonce was used. */
  datatype Auth = Auth(credentials: map<string, (string, string)>, counts: map<string, nat>)

  // ---------- The digest ----------

  function EndsWith(s: string, suffix: string): bool { |suffix| <= |s| && s[|s| - |suffix|..] == suffix }

  predicate Supported(algorithm: string) { "MD5" <= algorithm || "SHA-256" <= algorithm }

  function Ha1(hash: Hash, user: string, realm: string, password: string, nonce: string, cnonce: string,
               algorithm: string): string {
    var base := hash(user + (":" + (realm + (":" + password))), algorithm);
    if EndsWith(algorithm, "-sess") then hash(base + (":" + (nonce + (":" + cnonce))), algorithm) else base
  }

  function Ha2(hash: Hash, verb: string, uri: string, qop: Option<string>, body: Option<string>,
               algorithm: string): string {
    var data := verb + (":" + uri);
    hash(if qop == Some("auth-int") && body.Some? then data + (":" + hash(body.value, algorithm)) else data, algorithm)
  }

  function HexDigit(d: nat): char
    requires d < 16
  {
    if d < 10 then Digit(d) else ('a' as int + d - 10) as char
  }

  /** `format(n, "08x")`. */
  function Hex(n: nat, width: nat): string
    decreases n, width
  {
    if n == 0 && width == 0 then ""
    else Hex(n / 16, if width == 0 then 0 else width - 1) + [HexDigit(n % 16)]
  }

  function Digest(hash: Hash, user: string, realm: string, password: string, verb: string, uri: string, nonce: string,
                  nc: nat, cnonce: string, qop: Option<string>, algorithm: string, body: Option<string>): string
  {
    var ha1 := Ha1(hash, user, realm, password, nonce, cnonce, algorithm);
    var ha2 := Ha2(hash, verb, uri, qop, body, algorithm);
    if qop == Some("auth") || qop == Some("auth-int") then
      hash(ha1 + (":" + (nonce + (":" + (Hex(nc, 8) + (":" + (cnonce + (":" + (qop.value + (":" + ha2))))))))),
           algorithm)
    else hash(ha1 + (":" + (nonce + (":" + ha2))), algorithm)
  }

  /** The algorithm name is upper-cased before use, so the session form of HA1 is never taken. */
  lemma SessionNeverUsed(hash: Hash, user: string, realm: string, password: string, nonce: string, cnonce: string,
                         algorithm: string)
    ensures Ha1(hash, user, realm, password, nonce, cnonce, Upper(algorithm))
         == hash(user + (":" + (realm + (":" + password))), Upper(algorithm))
  {
    var a := Upper(algorithm);
    if |a| >= 5 {
      var k := |a| - 1;
      assert a[k] == UpperChar(algorithm[k]);
      assert a[k] != 's';
      assert a[|a| - 5..][4] == a[k];
      assert "-sess"[4] == 's';
    }
  }

  // ---------- Answering one challenge ----------

  function Param(params: map<string, string>, key: string): Option<string> {
    if key in params then Some(params[key]) else None
  }

  function ParamOr(params: map<string, string>, key: string, default: string): string {
    if key in params then params[key] else default
  }

  /** A parameter that is present and not empty. */
  predicate Given(v: Option<string>) { v.Some? && v.value != "" }

  function Algorithm(params: map<string, string>): string { Upper(ParamOr(params, "algorithm", "MD5")) }

  function Nonce(params: map<string, string>): string { ParamOr(params, "nonce", "") }

  function Count(auth: Auth, nonce: string): nat { if nonce in auth.counts then auth.counts[nonce] else 0 }

  function Counted(auth: Auth, nonce: string): Auth { auth.(counts := auth.counts[nonce := Count(auth, nonce) + 1]) }

  predicate KnownRealm(auth: Auth, params: map<string, string>) { ParamOr(params, "realm", "") in auth.credentials }

  function Quoted(key: string, value: string): string { (key + ("=\"" + value)) + "\"" }

  /** The parameters of an Authorization value, in order. */
  function HeaderFields(hash: Hash, credentials: (string, string), verb: string, uri: string,
                        params: map<string, string>,
                        body: Option<string>, nc: nat, cnonce: string): seq<string>
  {
    var (user, password) := credentials;
    var realm, nonce, echoed, algorithm, qop :=
      ParamOr(params, "realm", ""), Nonce(params), Param(params, "opaque"), Algorithm(params), Param(params, "qop");
    var response := Digest(hash, user, realm, password, verb, uri, nonce, nc, cnonce, qop, algorithm, body);
    [Quoted("username", user), Quoted("realm", realm), Quoted("nonce", nonce), Quoted("uri", uri),
     Quoted("response", response)]
    + (if algorithm != "" then ["algorithm=" + algorithm] else [])
    + (if Given(echoed) then [Quoted("opaque", echoed.value)] else [])
    + (if Given(qop) then ["qop=" + qop.value, "nc=" + Hex(nc, 8), Quoted("cnonce", cnonce)] else [])
  }

  function HeaderText(hash: Hash, credentials: (string, string), verb: string, uri: string, params: map<string, string>,
                      body: Option<string>, nc: nat, cnonce: string): string
  {
    "Digest " + Join(", ", HeaderFields(hash, credentials, verb, uri, params, body, nc, cnonce))
  }

  /**
   * The Authorization value and the new counts. Without credentials nothing is counted; with an
   * unsupported algorithm the use is counted although no header results.
   */
  function Authorize(hash: Hash, auth: Auth, verb: string, uri: string, params: map<string, string>,
                     body: Option<string>, cnonce: string)
    : (Auth, Option<string>)
  {
    if !KnownRealm(auth, params) then (auth, None)
    else
      var after := Counted(auth, Nonce(params));
      if !Supported(Algorithm(params)) then (after, None)
      else
        var nc := Count(after, Nonce(params));
        (after, Some(HeaderText(hash, auth.credentials[ParamOr(params, "realm", "")], verb, uri, params, body, nc,
                                cnonce)))
  }

  function ChallengeHeader(status: int): string { if status == 401 then "www-authenticate" else "proxy-authenticate" }

  function CredentialsHeader(status: int): string { if status == 401 then "Authorization" else "Proxy-Authorization" }

  predicate IsStatus(response: Message, status: int) { response.start.Response? && response.start.status == status }

  function HandleChallenge(hash: Hash, parse: ParseChallenge, auth: Auth, response: Message, request: Message,
                           cnonce: string)
    : (Auth, Option<string>)
  {
    if !IsStatus(response, 401) && !IsStatus(response, 407) then (auth, None)
    else
      var challenge := Get(response.headers, ChallengeHeader(response.start.status));
      if !Given(challenge) || !request.start.Request? then (auth, None)
      else
        Authorize(hash, auth, MethodName(request.start.verb), request.start.uri, parse(challenge.value),
                  if request.body.Some? then Some(request.body.value.content) else None, cnonce)
  }

  // ---------- The authenticated request ----------

  function CopyHeaders(headers: seq<Header>): seq<Header> {
    if headers == [] then []
    else (if Named(headers[0], "via") then []
          else [NewHeader(headers[0].name, headers[0].value)]) + CopyHeaders(headers[1..])
  }

  function NewVia(via: Option<string>, branch: string): string {
    if Given(via) then SetBranch(via.value, branch) else "SIP/2.0/UDP 0.0.0.0;branch=" + branch
  }

  /** One more in front of the method; None is the ValueError of a number that is none. */
  function NextCSeq(headers: seq<Header>): Option<seq<Header>> {
    var cseq := Get(headers, "cseq");
    if !Given(cseq) then Some(headers)
    else
      var parts := SplitWs(cseq.value);
      if |parts| < 2 then Some(headers)
      else
        var n :- ParseInt(parts[0]);
        Some(Set(headers, "CSeq", IntStr(n + 1) + (" " + parts[1])))
  }

  /** The request sent again with its credentials, under a new branch and the next CSeq. */
  function Resubmit(request: Message, status: int, value: string, branch: string): Option<Message>
    requires request.start.Request?
  {
    var via := NewVia(Get(request.headers, "via"), branch);
    var headers := Set(Set(CopyHeaders(request.headers), "Via", via), CredentialsHeader(status), value);
    var counted :- NextCSeq(headers);
    Some(Message(Request(request.start.verb, Strip(request.start.uri)), counted, request.body))
  }

  /** A response, with the branch and the client nonce that are made up if it is to be answered. */
  datatype Arrival = Arrival(response: Message, branch: string, cnonce: string)

  datatype Outcome = Unchanged | Retry(request: Message) | Fails

  function Authenticate(hash: Hash, parse: ParseChallenge, auth: Auth, request: Message, response: Message,
                        branch: string, cnonce: string)
    : (Auth, Outcome)
  {
    var (after, header) := HandleChallenge(hash, parse, auth, response, request, cnonce);
    if !Given(header) || !request.start.Request? || !response.start.Response? then (after, Unchanged)
    else
      var r := Resubmit(request, response.start.status, header.value, branch);
      (after, if r.Some? then Retry(r.value) else Fails)
  }

  // ---------- The authenticator object ----------

  class DigestAuthentication {
    var credentials: map<string, (string, string)>
    var nonceCount: map<string, nat>

    ghost function View(): Auth
      reads this
    {
      Auth(credentials, nonceCount)
    }

    constructor ()
      ensures View() == Auth(map[], map[])
    {
      credentials, nonceCount := map[], map[];
    }

    method AddCredentials(realm: string, user: string, password: string)
      modifies this
      ensures View() == old(View()).(credentials := old(credentials)[realm := (user, password)])
    {
      credentials := credentials[realm := (user, password)];
    }

    method GetNonceCount(nonce: string) returns (nc: nat)
      modifies this
      ensures View() == Counted(old(View()), nonce) && nc == Count(View(), nonce)
    {
      if nonce !in nonceCount { nonceCount := nonceCount[nonce := 0]; }
      nonceCount := nonceCount[nonce := nonceCount[nonce] + 1];
      nc := nonceCount[nonce];
    }

    method GenerateAuthorizationHeader(hash: Hash, verb: string, uri: string, params: map<string, string>,
                                       body: Option<string>, cnonce: string)
      returns (header: Option<string>)
      modifies this
      ensures (View(), header) == Authorize(hash, old(View()), verb, uri, params, body, cnonce)
    {
      hide HeaderText, Upper;
      var realm := ParamOr(params, "realm", "");
      if realm !in credentials { return None; }
      var known := credentials[realm];
      var nc := GetNonceCount(Nonce(params));
      if !Supported(Algorithm(params)) { return None; }
      header := Some(HeaderText(hash, known, verb, uri, params, body, nc, cnonce));
    }

    method HandleAuthenticationChallenge(hash: Hash, parse: ParseChallenge, response: Message, request: Message,
                                         cnonce: string)
      returns (header: Option<string>)
      modifies this
      ensures (View(), header) == HandleChallenge(hash, parse, old(View()), response, request, cnonce)
    {
      hide Authorize, Get;
      if !IsStatus(response, 401) && !IsStatus(response, 407) { return None; }
      var challenge := Get(response.headers, ChallengeHeader(response.start.status));
      if !Given(challenge) { return None; }
      if !request.start.Request? { return None; }
      header := GenerateAuthorizationHeader(hash, MethodName(request.start.verb), request.start.uri,
                                            parse(challenge.value),
                                            if request.body.Some? then Some(request.body.value.content) else None,
                                            cnonce);
    }

    static method CopyAllButVia(from: seq<Header>) returns (headers: seq<Header>)
      ensures headers == CopyHeaders(from)
    {
      hide Lower, Strip;
      headers := [];
      assert from[0..] == from;
      for i := 0 to |from|
        invariant headers + CopyHeaders(from[i..]) == CopyHeaders(from)
      {
        var h := from[i];
        assert from[i..][0] == h && from[i..][1..] == from[i + 1..];
        if Lower(h.name) != Lower("via") {
          var copy := NewHeader(h.name, h.value);
          assert headers + ([copy] + CopyHeaders(from[i + 1..])) == (headers + [copy]) + CopyHeaders(from[i + 1..]);
          headers := headers + [copy];
        } else {
          assert [] + CopyHeaders(from[i + 1..]) == CopyHeaders(from[i + 1..]);
        }
      }
      assert headers + [] == headers;
    }

    method CreateAuthenticatedRequest(hash: Hash, parse: ParseChallenge, request: Message, response: Message,
                                      branch: string, cnonce: string)
      returns (outcome: Outcome)
      modifies this
      ensures (View(), outcome) == Authenticate(hash, parse, old(View()), request, response, branch, cnonce)
    {
      hide HandleChallenge, NextCSeq, Set, NewVia, CopyHeaders, Get, Strip;
      var header := HandleAuthenticationChallenge(hash, parse, response, request, cnonce);
      if !Given(header) || !request.start.Request? || !response.start.Response? { return Unchanged; }
      var headers := CopyAllButVia(request.headers);
      headers := Set(headers, "Via", NewVia(Get(request.headers, "via"), branch));
      headers := Set(headers, CredentialsHeader(response.start.status), header.value);
      var counted := NextCSeq(headers);
      if counted.None? { return Fails; }
      outcome := Retry(Message(Request(request.start.verb, Strip(request.start.uri)), counted.value, request.body));
    }
  }
}
