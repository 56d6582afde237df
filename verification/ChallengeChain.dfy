/** A request answered by one authentication challenge after another. */
module ChallengeChain {
  import opened Text
  import opened SipMessages
  import opened ViaBranch
  import opened DigestAuth

  // ---------- Header lists ----------

  predicate TrimHeader(h: Header) { Trim(h.name) && Trim(h.value) }

  /** As headers are when they were added: without outer white space. */
  predicate Trimmed(hs: seq<Header>) { forall i | 0 <= i < |hs| :: TrimHeader(hs[i]) }

  function HowMany(hs: seq<Header>, name: string): nat {
    if hs == [] then 0 else (if Named(hs[0], name) then 1 else 0) + HowMany(hs[1..], name)
  }

  /** Headers an authenticated retry rewrites. */
  predicate Rewritten(h: Header) {
    Named(h, "via") || Named(h, "cseq") || Named(h, "authorization") || Named(h, "proxy-authorization")
  }

  function Others(hs: seq<Header>): seq<Header> {
    if hs == [] then [] else (if Rewritten(hs[0]) then [] else [hs[0]]) + Others(hs[1..])
  }

  lemma TrimNew(name: string, value: string)
    requires Trim(name)
    ensures NewHeader(name, value) == Header(name, Strip(value)) && TrimHeader(NewHeader(name, value))
  {
    StripTrim(name);
    StripIsTrim(value);
  }

  /** A header without outer white space is copied as it is. */
  lemma CopySame(h: Header)
    requires TrimHeader(h)
    ensures NewHeader(h.name, h.value) == h
  {
    StripTrim(h.name);
    StripTrim(h.value);
  }

  lemma SetGet(hs: seq<Header>, name: string, value: string, other: string)
    requires Trim(name) && Trim(value)
    ensures Get(Set(hs, name, value), other) == if Lower(name) == Lower(other) then Some(value) else Get(hs, other)
    decreases |hs|
  {
    hide Lower, NewHeader, Trim;
    if hs == [] {
      NewTrimmed(name, value);
      var h := Header(name, value);
      assert [h][1..] == [];
    } else if !Named(hs[0], name) {
      SetGet(hs[1..], name, value, other);
    } else {
      var h := hs[0].(value := value);
      assert ([h] + hs[1..])[1..] == hs[1..];
    }
  }

  lemma NewTrimmed(name: string, value: string)
    requires Trim(name) && Trim(value)
    ensures NewHeader(name, value) == Header(name, value)
  {
    CopySame(Header(name, value));
  }

  lemma SetCount(hs: seq<Header>, name: string, value: string, other: string)
    requires Trim(name)
    ensures HowMany(Set(hs, name, value), other)
         == if Lower(name) == Lower(other) && HowMany(hs, other) == 0 then 1 else HowMany(hs, other)
    decreases |hs|
  {
    hide Lower, Strip;
    if hs == [] {
      TrimNew(name, value);
      var h := NewHeader(name, value);
      assert [h][1..] == [];
    } else if !Named(hs[0], name) {
      SetCount(hs[1..], name, value, other);
    } else {
      var h := hs[0].(value := value);
      assert ([h] + hs[1..])[1..] == hs[1..];
    }
  }

  lemma SetOthers(hs: seq<Header>, name: string, value: string)
    requires Trim(name) && Rewritten(Header(name, value))
    ensures Others(Set(hs, name, value)) == Others(hs)
    decreases |hs|
  {
    hide Lower, Strip;
    if hs == [] {
      TrimNew(name, value);
      var h := NewHeader(name, value);
      assert Rewritten(h);
      assert [h][1..] == [];
    } else if !Named(hs[0], name) {
      SetOthers(hs[1..], name, value);
    } else {
      var h := hs[0].(value := value);
      assert Rewritten(h) && Rewritten(hs[0]);
      assert ([h] + hs[1..])[1..] == hs[1..];
    }
  }

  lemma SetTrimmed(hs: seq<Header>, name: string, value: string)
    requires Trimmed(hs) && Trim(name) && Trim(value)
    ensures Trimmed(Set(hs, name, value))
    decreases |hs|
  {
    hide Lower, Strip;
    if hs == [] {
      TrimNew(name, value);
    } else {
      assert TrimHeader(hs[0]);
      var t := hs[1..];
      assert Trimmed(t);
      if !Named(hs[0], name) { SetTrimmed(t, name, value); }
    }
  }

  lemma CopyKeeps(hs: seq<Header>, name: string)
    requires Trimmed(hs)
    ensures Trimmed(CopyHeaders(hs)) && Others(CopyHeaders(hs)) == Others(hs)
    ensures HowMany(CopyHeaders(hs), name) == if Lower(name) == Lower("via") then 0 else HowMany(hs, name)
    ensures Lower(name) != Lower("via") ==> Get(CopyHeaders(hs), name) == Get(hs, name)
    decreases |hs|
  {
    hide Lower, NewHeader, TrimHeader;
    if hs != [] {
      var h, t := hs[0], hs[1..];
      assert TrimHeader(h) && Trimmed(t);
      CopySame(h);
      CopyKeeps(t, name);
      var c := CopyHeaders(t);
      if Named(h, "via") {
        assert CopyHeaders(hs) == c;
        assert Others(hs) == Others(t);
      } else {
        assert CopyHeaders(hs) == [h] + c;
        ConsKeeps(h, c, t, name);
        assert [h] + t == hs;
      }
    }
  }

  /** The same header in front of two lists that agree. */
  lemma ConsKeeps(h: Header, c: seq<Header>, t: seq<Header>, name: string)
    requires Trimmed(c) && TrimHeader(h) && Others(c) == Others(t)
    ensures Trimmed([h] + c) && Others([h] + c) == Others([h] + t)
    ensures HowMany([h] + c, name) == (if Named(h, name) then 1 else 0) + HowMany(c, name)
    ensures HowMany([h] + t, name) == (if Named(h, name) then 1 else 0) + HowMany(t, name)
    ensures Get([h] + c, name) == if Named(h, name) then Some(h.value) else Get(c, name)
    ensures Get([h] + t, name) == if Named(h, name) then Some(h.value) else Get(t, name)
  {
    hide Named, TrimHeader, Rewritten;
    assert ([h] + c)[1..] == c && ([h] + t)[1..] == t;
  }

  // ---------- The new Via ----------

  predicate CleanBranch(b: string) { IsBranch(b) && forall i | 0 <= i < |b| :: NotSpace(b[i]) }

  lemma {:induction false} SetBranchEnd(s: string, b: string)
    requires s != "" && NotSpace(s[|s| - 1]) && CleanBranch(b)
    ensures SetBranch(s, b) != "" && NotSpace(SetBranch(s, b)[|SetBranch(s, b)| - 1])
    decreases |s|
  {
    hide IsSpace;
    if BranchAt(s) {
      var rest := s[|BRANCH| + |BranchValue(s)|..];
      var t := SetBranch(rest, b);
      var out := BRANCH + (b + t);
      if rest == "" {
        assert t == "";
        assert out[|out| - 1] == b[|b| - 1];
      } else {
        assert rest[|rest| - 1] == s[|s| - 1];
        SetBranchEnd(rest, b);
        assert out[|out| - 1] == t[|t| - 1];
      }
    } else {
      var t := SetBranch(s[1..], b);
      var out := [s[0]] + t;
      if s[1..] == "" {
        assert out == [s[0]];
      } else {
        assert s[1..][|s[1..]| - 1] == s[|s| - 1];
        SetBranchEnd(s[1..], b);
        assert out[|out| - 1] == t[|t| - 1];
      }
    }
  }

  lemma SetBranchTrim(s: string, b: string)
    requires Trim(s) && CleanBranch(b)
    ensures Trim(SetBranch(s, b))
  {
    if s != "" {
      SetBranchEnd(s, b);
      assert SetBranch(s, b)[0] == if BranchAt(s) then 'b' else s[0];
    }
  }

  // ---------- One retry ----------

  /** A request as the source builds one: nothing has outer white space. */
  predicate Plain(r: Message) { r.start.Request? && Trim(r.start.uri) && Trimmed(r.headers) }

  /** What the CSeq header says: nothing to count, a number that is none, or a number and a method. */
  datatype CSeq = NoCount | Broken | Counts(n: int, verb: string)

  function CSeqOf(hs: seq<Header>): CSeq {
    var v := Get(hs, "cseq");
    if !Given(v) then NoCount
    else
      var parts := SplitWs(v.value);
      if |parts| < 2 then NoCount
      else
        var n := ParseInt(parts[0]);
        if n.None? then Broken else Counts(n.value, parts[1])
  }

  function CSeqLine(n: int, verb: string): string { IntStr(n) + (" " + verb) }

  /** The CSeq moved on by k; one that counts nothing stays. */
  predicate CSeqMoved(hs: seq<Header>, out: seq<Header>, k: nat) {
    match CSeqOf(hs)
    case Counts(n, verb) => Get(out, "cseq") == Some(CSeqLine(n + k, verb)) && CSeqOf(out) == Counts(n + k, verb)
    case NoCount => Get(out, "cseq") == Get(hs, "cseq") && CSeqOf(out) == NoCount
    case Broken => false
  }

  /** The source can put a new branch into this Via: there is none, or it has a branch to replace. */
  predicate Renewable(via: Option<string>) { !Given(via) || BranchOf(via.value).Some? }

  /** One Via, with the new branch if and only if the old one could be renewed; else the old one. */
  predicate ViaAfter(hs: seq<Header>, out: seq<Header>, branch: string) {
    var was, now := Get(hs, "via"), Get(out, "via");
    && HowMany(out, "via") == 1 && Given(now)
    && (BranchOf(now.value) == Some(branch) <==> Renewable(was))
    && (!Renewable(was) ==> now == was && BranchOf(now.value) == None)
  }

  lemma {:induction false} GetTrim(hs: seq<Header>, name: string)
    requires Trimmed(hs) && Get(hs, name).Some?
    ensures Trim(Get(hs, name).value)
    decreases |hs|
  {
    hide Lower;
    assert TrimHeader(hs[0]);
    if !Named(hs[0], name) {
      assert Trimmed(hs[1..]);
      GetTrim(hs[1..], name);
    }
  }

  lemma CSeqText(n: int, verb: string)
    requires IsWord(verb)
    ensures var v := IntStr(n) + (" " + verb);
      v != "" && Trim(v) && SplitWs(v) == [IntStr(n), verb] && ParseInt(IntStr(n)) == Some(n)
  {
    var w := IntStr(n);
    IntStrIsWord(n);
    ParseIntStr(n);
    hide IntStr, ParseInt;
    var v := w + (" " + verb);
    assert v[0] == w[0] && v[|v| - 1] == verb[|verb| - 1];
    SplitWsJoin([w, verb]);
    assert [w, verb][1..] == [verb];
    assert Join(" ", [w, verb]) == v;
  }

  lemma Names()
    ensures Lower("Via") == Lower("via") && Lower("CSeq") == Lower("cseq")
    ensures Lower("Authorization") == Lower("authorization")
        && Lower("Proxy-Authorization") == Lower("proxy-authorization")
    ensures |Lower("via")| == 3 && |Lower("cseq")| == 4 && |Lower("authorization")| == 13
        && |Lower("proxy-authorization")| == 19
  {
  }

  /** The credentials header of the other kind of challenge. */
  function OtherHeader(status: int): string { if status == 401 then "Proxy-Authorization" else "Authorization" }

  /** The header list after credentials and branch are set, before CSeq moves on. */
  function Credentialed(hs: seq<Header>, via: string, name: string, value: string): seq<Header> {
    Set(Set(CopyHeaders(hs), "Via", via), name, value)
  }

  /** What the list says afterwards; `cseq` is its CSeq value. */
  predicate Rebuilt(hs: seq<Header>, out: seq<Header>, via: string, status: int, value: string, cseq: Option<string>) {
    var name, other := CredentialsHeader(status), OtherHeader(status);
    && Trimmed(out)
    && Others(out) == Others(hs)
    && HowMany(out, "via") == 1 && Get(out, "via") == Some(via)
    && HowMany(out, name) == AtLeastOne(HowMany(hs, name)) && Get(out, name) == Some(value)
    && Get(out, "cseq") == cseq
    && HowMany(out, other) == HowMany(hs, other) && Get(out, other) == Get(hs, other)
  }

  lemma CopySet(hs: seq<Header>, via: string, name: string, value: string, other: string)
    requires Trimmed(hs) && Trim(via) && Trim(value) && Trim(name) && Trim("Via")
    requires Lower(other) != Lower("via") && Lower("Via") == Lower("via") && Lower(other) != Lower(name)
    ensures HowMany(Credentialed(hs, via, name, value), other) == HowMany(hs, other)
    ensures Get(Credentialed(hs, via, name, value), other) == Get(hs, other)
  {
    hide Lower, Set, CopyHeaders, Get, HowMany, Others, Trimmed, Trim;
    var copy := CopyHeaders(hs);
    var first := Set(copy, "Via", via);
    CopyKeeps(hs, other);
    SetCount(copy, "Via", via, other);
    SetCount(first, name, value, other);
    SetGet(copy, "Via", via, other);
    SetGet(first, name, value, other);
  }

  lemma CredentialedRebuilt(hs: seq<Header>, via: string, status: int, value: string)
    requires Trimmed(hs) && Trim(via) && Trim(value)
    ensures Rebuilt(hs, Credentialed(hs, via, CredentialsHeader(status), value), via, status, value, Get(hs, "cseq"))
  {
    Names();
    var name, other := CredentialsHeader(status), OtherHeader(status);
    assert Trim(name) && Trim("Via");
    hide Lower, Set, CopyHeaders, Get, HowMany, Others, Trimmed, Trim;
    var copy := CopyHeaders(hs);
    var first := Set(copy, "Via", via);
    CopyKeeps(hs, "via");
    CopyKeeps(hs, name);
    SetTrimmed(copy, "Via", via);
    SetTrimmed(first, name, value);
    SetOthers(copy, "Via", via);
    SetOthers(first, name, value);
    SetCount(copy, "Via", via, "via");
    SetCount(first, name, value, "via");
    SetCount(copy, "Via", via, name);
    SetCount(first, name, value, name);
    SetGet(copy, "Via", via, "via");
    SetGet(first, name, value, "via");
    SetGet(first, name, value, name);
    CopySet(hs, via, name, value, "cseq");
    CopySet(hs, via, name, value, other);
  }

  /** Moving CSeq on changes no other header. */
  lemma CSeqRebuilt(hs: seq<Header>, out: seq<Header>, via: string, status: int, value: string, was: Option<string>,
                    cseq: string)
    requires Rebuilt(hs, out, via, status, value, was) && Trim(cseq)
    ensures Rebuilt(hs, Set(out, "CSeq", cseq), via, status, value, Some(cseq))
  {
    Names();
    var name, other := CredentialsHeader(status), OtherHeader(status);
    assert Trim("CSeq");
    hide Lower, Set, Get, HowMany, Others, Trimmed, Trim;
    SetTrimmed(out, "CSeq", cseq);
    SetOthers(out, "CSeq", cseq);
    SetCount(out, "CSeq", cseq, "via");
    SetCount(out, "CSeq", cseq, name);
    SetGet(out, "CSeq", cseq, "via");
    SetGet(out, "CSeq", cseq, name);
    SetGet(out, "CSeq", cseq, "cseq");
    SetCount(out, "CSeq", cseq, other);
    SetGet(out, "CSeq", cseq, other);
  }

  /** The same request but for the four kinds of headers a retry rewrites. */
  predicate SameRequest(r: Message, q: Message) {
    q.start == r.start && q.body == r.body && Others(q.headers) == Others(r.headers)
  }

  function AtLeastOne(n: nat): nat { if n == 0 then 1 else n }

  /** One retry: CSeq, Via and the credentials of this challenge move on, everything else stays. */
  predicate Retried(r: Message, q: Message, status: int, value: string, branch: string) {
    && Plain(q) && SameRequest(r, q)
    && CSeqMoved(r.headers, q.headers, 1)
    && ViaAfter(r.headers, q.headers, branch)
    && Get(q.headers, CredentialsHeader(status)) == Some(value)
    && HowMany(q.headers, CredentialsHeader(status)) == AtLeastOne(HowMany(r.headers, CredentialsHeader(status)))
    && Get(q.headers, OtherHeader(status)) == Get(r.headers, OtherHeader(status))
    && HowMany(q.headers, OtherHeader(status)) == HowMany(r.headers, OtherHeader(status))
  }

  /** The Via a retry sends. */
  lemma NewViaExact(via: Option<string>, branch: string)
    requires CleanBranch(branch) && (via.Some? ==> Trim(via.value))
    ensures var v := NewVia(via, branch);
      && v != "" && Trim(v)
      && (BranchOf(v) == Some(branch) <==> Renewable(via))
      && (!Renewable(via) ==> via == Some(v) && BranchOf(v) == None)
  {
    if Given(via) {
      hide BranchOf, SetBranch, IsSpace;
      SetBranchTrim(via.value, branch);
      if BranchOf(via.value).Some? {
        BranchSet(via.value, branch);
        NoEmptyBranch();
      } else {
        NoBranch(via.value, branch);
      }
    } else {
      MadeUpVia(branch);
    }
  }

  lemma NoEmptyBranch()
    ensures BranchOf("") == None
  {
  }

  lemma MadeUpVia(branch: string)
    requires CleanBranch(branch)
    ensures var v := "SIP/2.0/UDP 0.0.0.0;branch=" + branch; Trim(v) && BranchOf(v) == Some(branch)
  {
    var front, v := "SIP/2.0/UDP 0.0.0.0;", "SIP/2.0/UDP 0.0.0.0;branch=" + branch;
    assert NotSpace('S');
    hide BranchOf, IsSpace;
    assert BRANCH + (branch + "") == BRANCH + branch;
    assert v == front + (BRANCH + branch);
    assert 'b' !in front;
    BranchSkip(front, BRANCH + branch);
    BranchRead(branch, "");
    assert v[0] == 'S' && v[|v| - 1] == branch[|branch| - 1];
  }

  lemma NextCSeqExact(hs: seq<Header>)
    ensures match CSeqOf(hs)
      case NoCount => NextCSeq(hs) == Some(hs)
      case Broken => NextCSeq(hs) == None
      case Counts(n, verb) => NextCSeq(hs) == Some(Set(hs, "CSeq", CSeqLine(n + 1, verb))) && IsWord(verb)
  {
    hide Get, SplitWs, ParseInt, IntStr, Set, IsWord;
    var v := Get(hs, "cseq");
    if Given(v) { SplitWsWords(v.value); }
  }

  /** The header list a retry ends up with, unless its CSeq is broken. */
  function RetryHeaders(hs: seq<Header>, status: int, value: string, branch: string): seq<Header> {
    var out := Credentialed(hs, NewVia(Get(hs, "via"), branch), CredentialsHeader(status), value);
    match CSeqOf(hs)
    case Counts(n, verb) => Set(out, "CSeq", CSeqLine(n + 1, verb))
    case _ => out
  }

  lemma SameCSeq(hs: seq<Header>, out: seq<Header>)
    requires Get(out, "cseq") == Get(hs, "cseq")
    ensures CSeqOf(out) == CSeqOf(hs)
  {
    hide Get, SplitWs, ParseInt;
  }

  lemma LineCounts(out: seq<Header>, n: int, verb: string)
    requires IsWord(verb) && Get(out, "cseq") == Some(CSeqLine(n, verb))
    ensures CSeqOf(out) == Counts(n, verb)
  {
    CSeqText(n, verb);
    hide Get, SplitWs, ParseInt, IntStr, IsWord;
  }

  lemma ViaTrim(r: Message)
    requires Plain(r)
    ensures Get(r.headers, "via").Some? ==> Trim(Get(r.headers, "via").value)
  {
    hide Get, Trim;
    if Get(r.headers, "via").Some? { GetTrim(r.headers, "via"); }
  }

  lemma PlainUri(r: Message)
    requires Plain(r)
    ensures Strip(r.start.uri) == r.start.uri
  {
    StripTrim(r.start.uri);
  }

  lemma ResubmitOut(r: Message, status: int, value: string, branch: string)
    requires r.start.Request? && Strip(r.start.uri) == r.start.uri
    ensures var hs := NextCSeq(Credentialed(r.headers, NewVia(Get(r.headers, "via"), branch),
                                            CredentialsHeader(status), value));
      Resubmit(r, status, value, branch) == if hs.None? then None else Some(Message(r.start, hs.value, r.body))
  {
    hide Get, IntStr, Set, CopyHeaders, NewVia, Strip, NextCSeq, CredentialsHeader;
  }

  lemma ResubmitIs(r: Message, status: int, value: string, branch: string)
    requires Plain(r) && CleanBranch(branch) && Trim(value)
    ensures Resubmit(r, status, value, branch)
         == if CSeqOf(r.headers).Broken? then None
           else Some(Message(r.start, RetryHeaders(r.headers, status, value, branch), r.body))
  {
    hide Get, Set, CopyHeaders, NewVia, Strip, NextCSeq, CSeqOf, CleanBranch, Trimmed, HowMany, Others, Trim, CSeqLine,
         Renewable, BranchOf, Credentialed, CredentialsHeader, Resubmit, OtherHeader, AtLeastOne, IsWord;
    PlainUri(r);
    ViaTrim(r);
    var via := NewVia(Get(r.headers, "via"), branch);
    NewViaExact(Get(r.headers, "via"), branch);
    var out := Credentialed(r.headers, via, CredentialsHeader(status), value);
    CredentialedRebuilt(r.headers, via, status, value);
    SameCSeq(r.headers, out);
    NextCSeqExact(out);
    ResubmitOut(r, status, value, branch);
  }

  lemma RetryRebuilt(r: Message, status: int, value: string, branch: string)
    requires Plain(r) && CleanBranch(branch) && Trim(value) && !CSeqOf(r.headers).Broken?
    ensures var hs := RetryHeaders(r.headers, status, value, branch);
      Rebuilt(r.headers, hs, NewVia(Get(r.headers, "via"), branch), status, value, Get(hs, "cseq"))
      && CSeqMoved(r.headers, hs, 1)
  {
    hide Get, SplitWs, ParseInt, IntStr, Set, CopyHeaders, NewVia, CleanBranch, IsSpace, Trimmed, HowMany, Others, Trim,
         IsWord, Renewable, BranchOf, Credentialed, CredentialsHeader;
    ViaTrim(r);
    var via := NewVia(Get(r.headers, "via"), branch);
    NewViaExact(Get(r.headers, "via"), branch);
    var out := Credentialed(r.headers, via, CredentialsHeader(status), value);
    CredentialedRebuilt(r.headers, via, status, value);
    SameCSeq(r.headers, out);
    NextCSeqExact(out);
    var c := CSeqOf(r.headers);
    hide CSeqOf;
    if c.Counts? {
      CSeqText(c.n + 1, c.verb);
      CSeqRebuilt(r.headers, out, via, status, value, Get(r.headers, "cseq"), CSeqLine(c.n + 1, c.verb));
      LineCounts(Set(out, "CSeq", CSeqLine(c.n + 1, c.verb)), c.n + 1, c.verb);
    }
  }

  /**
   * One retry, exactly: it fails iff the CSeq number is none; otherwise CSeq moves on, there is one
   * Via, with the new branch iff the old Via could be renewed, and the credentials are set once.
   */
  lemma RetryStep(r: Message, status: int, value: string, branch: string)
    requires Plain(r) && CleanBranch(branch) && Trim(value)
    ensures var q := Resubmit(r, status, value, branch);
      (q.None? <==> CSeqOf(r.headers).Broken?) && (q.Some? ==> Retried(r, q.value, status, value, branch))
  {
    hide Get, NewVia, CleanBranch, Trimmed, HowMany, Others, Trim, BranchOf, Resubmit, RetryHeaders, CSeqMoved,
         Renewable, CredentialsHeader, CSeqOf;
    ResubmitIs(r, status, value, branch);
    ViaTrim(r);
    NewViaExact(Get(r.headers, "via"), branch);
    if !CSeqOf(r.headers).Broken? { RetryRebuilt(r, status, value, branch); }
  }

  // ---------- Retries in a row ----------

  /** After k retries, the last one under `branch`. */
  predicate Moved(r: Message, q: Message, k: nat, branch: string) {
    Plain(q) && SameRequest(r, q) && CSeqMoved(r.headers, q.headers, k) && ViaAfter(r.headers, q.headers, branch)
  }

  lemma MovedOnce(r: Message, q: Message, status: int, value: string, branch: string)
    requires Retried(r, q, status, value, branch)
    ensures Moved(r, q, 1, branch)
  {
    hide Plain, SameRequest, CSeqMoved, ViaAfter, Get, HowMany;
  }

  lemma ViaComposes(a: seq<Header>, b: seq<Header>, c: seq<Header>, first: string, second: string)
    requires ViaAfter(a, b, first) && ViaAfter(b, c, second)
    ensures ViaAfter(a, c, second)
  {
    hide Get, HowMany, BranchOf;
  }

  lemma CSeqComposes(a: seq<Header>, b: seq<Header>, c: seq<Header>, k: nat)
    requires CSeqMoved(a, b, k) && CSeqMoved(b, c, 1)
    ensures CSeqMoved(a, c, k + 1)
  {
    hide Get, CSeqOf, CSeqLine;
  }

  lemma MovedOn(r: Message, p: Message, q: Message, k: nat, before: string, status: int, value: string, branch: string)
    requires Moved(r, p, k, before) && Retried(p, q, status, value, branch)
    ensures Moved(r, q, k + 1, branch)
  {
    hide Plain, CSeqMoved, ViaAfter, Get, HowMany, Others;
    ViaComposes(r.headers, p.headers, q.headers, before, branch);
    CSeqComposes(r.headers, p.headers, q.headers, k);
  }

  // ---------- The authenticator's own chain ----------

  /** The authenticator answers one response after the other; None as soon as it cannot. */
  function Progress(hash: Hash, parse: ParseChallenge, auth: Auth, r: Message,
                    rs: seq<Arrival>): Option<(Auth, Message)>
    decreases |rs|
  {
    if rs == [] then Some((auth, r))
    else
      var (a, p) :- Progress(hash, parse, auth, r, rs[..|rs| - 1]);
      var last := rs[|rs| - 1];
      var (after, outcome) := Authenticate(hash, parse, a, p, last.response, last.branch, last.cnonce);
      if outcome.Retry? then Some((after, outcome.request)) else None
  }

  /** The credentials the i-th response was answered with. */
  function AnswerAt(hash: Hash, parse: ParseChallenge, auth: Auth, r: Message, rs: seq<Arrival>, i: nat): Option<string>
    requires i < |rs|
  {
    var (a, p) :- Progress(hash, parse, auth, r, rs[..i]);
    HandleChallenge(hash, parse, a, rs[i].response, p, rs[i].cnonce).1
  }

  /** The challenge of a response names its algorithm without outer white space. */
  predicate TidyArrival(parse: ParseChallenge, a: Arrival) {
    && CleanBranch(a.branch)
    && (a.response.start.Response? ==>
          var h := Get(a.response.headers, ChallengeHeader(a.response.start.status));
          h.Some? ==> Trim(Algorithm(parse(h.value))))
  }

  lemma FieldsEnd(hash: Hash, credentials: (string, string), verb: string, uri: string, params: map<string, string>,
                  body: Option<string>, nc: nat, cnonce: string)
    requires Trim(Algorithm(params))
    ensures var fs := HeaderFields(hash, credentials, verb, uri, params, body, nc, cnonce);
      fs != [] && fs[|fs| - 1] != "" && NotSpace(fs[|fs| - 1][|fs[|fs| - 1]| - 1])
  {
    assert NotSpace('"');
    hide Digest, Hex, IsSpace, Upper;
  }

  lemma HeaderTextTrim(hash: Hash, credentials: (string, string), verb: string, uri: string,
                       params: map<string, string>,
                       body: Option<string>, nc: nat, cnonce: string)
    requires Trim(Algorithm(params))
    ensures Trim(HeaderText(hash, credentials, verb, uri, params, body, nc, cnonce))
  {
    assert NotSpace('D');
    hide HeaderFields, Algorithm, Join, IsSpace;
    FieldsEnd(hash, credentials, verb, uri, params, body, nc, cnonce);
    var fs := HeaderFields(hash, credentials, verb, uri, params, body, nc, cnonce);
    JoinLast(", ", fs);
    hide Trim;
    TrimEnds("Digest ", Join(", ", fs));
  }

  lemma TrimEnds(a: string, b: string)
    requires a != "" && b != "" && NotSpace(a[0]) && NotSpace(b[|b| - 1])
    ensures Trim(a + b)
  {
    hide IsSpace;
    assert (a + b)[0] == a[0] && (a + b)[|a + b| - 1] == b[|b| - 1];
  }

  lemma HeaderGivenTrim(hash: Hash, parse: ParseChallenge, auth: Auth, r: Message, a: Arrival)
    requires TidyArrival(parse, a) && HandleChallenge(hash, parse, auth, a.response, r, a.cnonce).1.Some?
    ensures Trim(HandleChallenge(hash, parse, auth, a.response, r, a.cnonce).1.value)
  {
    hide HeaderText, Get, CleanBranch, Algorithm, Trim;
    var params := parse(Get(a.response.headers, ChallengeHeader(a.response.start.status)).value);
    var after := Counted(auth, Nonce(params));
    HeaderTextTrim(hash, auth.credentials[ParamOr(params, "realm", "")], MethodName(r.start.verb), r.start.uri, params,
                   if r.body.Some? then Some(r.body.value.content) else None, Count(after, Nonce(params)), a.cnonce);
  }

  /** A retry of the authenticator resubmits the request with the credentials it computed. */
  lemma AnswerStep(hash: Hash, parse: ParseChallenge, auth: Auth, r: Message, a: Arrival)
    requires Plain(r) && TidyArrival(parse, a)
    requires Authenticate(hash, parse, auth, r, a.response, a.branch, a.cnonce).1.Retry?
    ensures a.response.start.Response?
    ensures var header := HandleChallenge(hash, parse, auth, a.response, r, a.cnonce).1;
      && Given(header)
      && Retried(r, Authenticate(hash, parse, auth, r, a.response, a.branch, a.cnonce).1.request,
                 a.response.start.status, header.value, a.branch)
  {
    var header := HandleChallenge(hash, parse, auth, a.response, r, a.cnonce).1;
    assert Given(header) && a.response.start.Response?;
    assert Authenticate(hash, parse, auth, r, a.response, a.branch, a.cnonce).1
        == Retry(Resubmit(r, a.response.start.status, header.value, a.branch).value);
    assert CleanBranch(a.branch);
    HeaderGivenTrim(hash, parse, auth, r, a);
    hide Resubmit, Retried, Plain, HandleChallenge, TidyArrival, CleanBranch, Trim, CSeqOf;
    RetryStep(r, a.response.start.status, header.value, a.branch);
  }

  predicate AsksFor(a: Arrival, name: string) {
    a.response.start.Response? && CredentialsHeader(a.response.start.status) == name
  }

  predicate Asked(rs: seq<Arrival>, name: string) { exists i | 0 <= i < |rs| :: AsksFor(rs[i], name) }

  /** How often a credentials header stands after these responses. */
  predicate Credited(r: Message, q: Message, rs: seq<Arrival>, name: string) {
    HowMany(q.headers, name)
    == if Asked(rs, name) then AtLeastOne(HowMany(r.headers, name)) else HowMany(r.headers, name)
  }

  /** No later response asks for the same credentials. */
  predicate LastAsk(rs: seq<Arrival>, i: nat, name: string) {
    i < |rs| && AsksFor(rs[i], name) && forall j | i < j < |rs| :: !AsksFor(rs[j], name)
  }

  /** A credentials header holds the answer to the last response that asked for it. */
  ghost predicate Answered(hash: Hash, parse: ParseChallenge, auth: Auth, r: Message, q: Message, rs: seq<Arrival>,
                           name: string) {
    forall i: nat | LastAsk(rs, i, name) ::
      Given(AnswerAt(hash, parse, auth, r, rs, i)) && Get(q.headers, name) == AnswerAt(hash, parse, auth, r, rs, i)
  }

  lemma CreditedStep(r: Message, p: Message, q: Message, rs: seq<Arrival>, name: string)
    requires rs != [] && Credited(r, p, rs[..|rs| - 1], name)
    requires HowMany(q.headers, name)
          == if AsksFor(rs[|rs| - 1], name) then AtLeastOne(HowMany(p.headers, name)) else HowMany(p.headers, name)
    ensures Credited(r, q, rs, name)
  {
    hide AsksFor, HowMany;
    var n := |rs| - 1;
    var init := rs[..n];
    if Asked(init, name) {
      var i :| 0 <= i < |init| && AsksFor(init[i], name);
      assert AsksFor(rs[i], name);
    }
    if Asked(rs, name) && !AsksFor(rs[n], name) {
      var i :| 0 <= i < |rs| && AsksFor(rs[i], name);
      assert AsksFor(init[i], name);
    }
  }

  lemma AnsweredStep(hash: Hash, parse: ParseChallenge, auth: Auth, r: Message, p: Message, q: Message,
                     rs: seq<Arrival>, name: string)
    requires rs != [] && Answered(hash, parse, auth, r, p, rs[..|rs| - 1], name)
    requires var last := AnswerAt(hash, parse, auth, r, rs, |rs| - 1);
      if AsksFor(rs[|rs| - 1], name) then Given(last) && Get(q.headers, name) == last
        else Get(q.headers, name) == Get(p.headers, name)
    ensures Answered(hash, parse, auth, r, q, rs, name)
  {
    hide AsksFor, Get, Progress, HandleChallenge, Given;
    var n := |rs| - 1;
    var init := rs[..n];
    forall i: nat | LastAsk(rs, i, name)
      ensures Given(AnswerAt(hash, parse, auth, r, rs, i))
          && Get(q.headers, name) == AnswerAt(hash, parse, auth, r, rs, i)
    {
      if i < n {
        assert !AsksFor(rs[n], name);
        assert LastAsk(init, i, name) by {
          forall j | i < j < |init| ensures !AsksFor(init[j], name) { assert !AsksFor(rs[j], name); }
        }
        assert init[..i] == rs[..i] && init[i] == rs[i];
        assert AnswerAt(hash, parse, auth, r, init, i) == AnswerAt(hash, parse, auth, r, rs, i);
      }
    }
  }

  /** Everything the chain keeps up to date, for any number of responses. */
  ghost predicate ChainHolds(hash: Hash, parse: ParseChallenge, auth: Auth, r: Message, q: Message, rs: seq<Arrival>) {
    && (if rs == [] then q == r else Moved(r, q, |rs|, rs[|rs| - 1].branch))
    && Credited(r, q, rs, "Authorization") && Credited(r, q, rs, "Proxy-Authorization")
    && Answered(hash, parse, auth, r, q, rs, "Authorization")
    && Answered(hash, parse, auth, r, q, rs, "Proxy-Authorization")
  }

  lemma ChainStep(hash: Hash, parse: ParseChallenge, auth: Auth, r: Message, rs: seq<Arrival>, a: Auth, p: Message)
    requires Plain(r) && rs != [] && Progress(hash, parse, auth, r, rs[..|rs| - 1]) == Some((a, p))
    requires ChainHolds(hash, parse, auth, r, p, rs[..|rs| - 1]) && Plain(p) && TidyArrival(parse, rs[|rs| - 1])
    requires var last := rs[|rs| - 1]; Authenticate(hash, parse, a, p, last.response, last.branch, last.cnonce).1.Retry?
    ensures var last := rs[|rs| - 1];
      ChainHolds(hash, parse, auth, r,
                 Authenticate(hash, parse, a, p, last.response, last.branch, last.cnonce).1.request, rs)
  {
    var n := |rs| - 1;
    var init, last := rs[..n], rs[n];
    hide Authenticate, Plain, TidyArrival, HandleChallenge, Progress, Moved, Credited, Answered, Get, HowMany, Given,
         ViaAfter, CSeqMoved, SameRequest, AtLeastOne;
    AnswerStep(hash, parse, a, p, last);
    var q := Authenticate(hash, parse, a, p, last.response, last.branch, last.cnonce).1.request;
    var header := HandleChallenge(hash, parse, a, last.response, p, last.cnonce).1;
    var status := last.response.start.status;
    assert AnswerAt(hash, parse, auth, r, rs, n) == header;
    GivenSome(header);
    if n == 0 { MovedOnce(r, q, status, header.value, last.branch); }
    else { MovedOn(r, p, q, n, init[n - 1].branch, status, header.value, last.branch); }
    CreditedStep(r, p, q, rs, "Authorization");
    CreditedStep(r, p, q, rs, "Proxy-Authorization");
    AnsweredStep(hash, parse, auth, r, p, q, rs, "Authorization");
    AnsweredStep(hash, parse, auth, r, p, q, rs, "Proxy-Authorization");
  }

  lemma GivenSome(v: Option<string>)
    ensures Given(v) ==> v.Some?
  {
  }

  /**
   * After the authenticator has answered k > 0 challenges: CSeq moved on by k, one Via, with the last
   * branch iff the first Via could be renewed, one header per kind of credentials asked for, each
   * holding the answer to the last response that asked, and everything else as it was.
   */
  lemma {:induction false} AnsweredChain(hash: Hash, parse: ParseChallenge, auth: Auth, r: Message, rs: seq<Arrival>)
    requires Plain(r) && Progress(hash, parse, auth, r, rs).Some?
    requires forall i | 0 <= i < |rs| :: TidyArrival(parse, rs[i])
    ensures Plain(Progress(hash, parse, auth, r, rs).value.1)
    ensures ChainHolds(hash, parse, auth, r, Progress(hash, parse, auth, r, rs).value.1, rs)
    decreases |rs|
  {
    hide Authenticate, TidyArrival, HowMany, Get, Plain, AnswerAt, Given;
    if rs != [] {
      var n := |rs| - 1;
      var init := rs[..n];
      assert TidyArrival(parse, rs[n]);
      forall i | 0 <= i < |init| ensures TidyArrival(parse, init[i]) { assert init[i] == rs[i]; }
      AnsweredChain(hash, parse, auth, r, init);
      var (a, p) := Progress(hash, parse, auth, r, init).value;
      ChainStep(hash, parse, auth, r, rs, a, p);
      hide ChainHolds;
      ChainPlain(hash, parse, auth, r, Progress(hash, parse, auth, r, rs).value.1, rs);
    }
  }

  lemma ChainPlain(hash: Hash, parse: ParseChallenge, auth: Auth, r: Message, q: Message, rs: seq<Arrival>)
    requires rs != [] && ChainHolds(hash, parse, auth, r, q, rs)
    ensures Plain(q)
  {
    hide Plain, Credited, Answered, SameRequest, CSeqMoved, ViaAfter;
  }

  // ---------- A Via that is never renewed ----------

  const BRANCHLESS: string := "SIP/2.0/UDP 10.0.0.1:5060"

  /** A request as the source accepts it, whose Via has no branch parameter. */
  const UNRENEWABLE: Message :=
    Message(Request(OPTIONS, "sip:bob@example.com"),
            [SipMessages.Header("Via", BRANCHLESS), SipMessages.Header("CSeq", "1 OPTIONS")], None)

  lemma BranchlessVia()
    ensures BranchOf(BRANCHLESS) == None
  {
    assert 'b' !in BRANCHLESS;
    hide BranchOf;
    assert BRANCHLESS + "" == BRANCHLESS;
    BranchSkip(BRANCHLESS, "");
    NoEmptyBranch();
  }

  /** It goes out again under the same Via after every challenge, so under no branch at all. */
  lemma UnrenewableStays(hash: Hash, parse: ParseChallenge, auth: Auth, rs: seq<Arrival>)
    requires rs != [] && Progress(hash, parse, auth, UNRENEWABLE, rs).Some?
    requires forall i | 0 <= i < |rs| :: TidyArrival(parse, rs[i])
    ensures Plain(UNRENEWABLE)
    ensures var q := Progress(hash, parse, auth, UNRENEWABLE, rs).value.1;
      Get(q.headers, "via") == Some(BRANCHLESS) && BranchOf(BRANCHLESS) == None
  {
    BranchlessVia();
    UnrenewablePlain();
    hide Progress, TidyArrival, Plain, Credited, Answered, BranchOf, HowMany, CSeqMoved, SameRequest, Get;
    AnsweredChain(hash, parse, auth, UNRENEWABLE, rs);
  }

  lemma UnrenewablePlain()
    ensures Plain(UNRENEWABLE) && Get(UNRENEWABLE.headers, "via") == Some(BRANCHLESS)
  {
    assert Lower("Via") == Lower("via");
    hide Lower;
  }
}
