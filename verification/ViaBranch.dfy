/** The branch parameter of a Via header: finding it and replacing it, as the source's patterns do. */
module ViaBranch {
  import opened Text
  import opened SipMessages

  const BRANCH: string := "branch="

  predicate NotSemicolon(c: char) { c != ';' }

  /** A branch parameter with a value begins here. */
  predicate BranchAt(s: string) {
    BRANCH <= s && |s| > |BRANCH| && s[|BRANCH|] != ';'
  }

  function BranchValue(s: string): (r: string)
    requires BranchAt(s)
    ensures r != "" && |BRANCH| + |r| <= |s|
  {
    s[|BRANCH|..][..Span(s[|BRANCH|..], NotSemicolon)]
  }

  /** The first match of `branch=([^;]+)`. */
  function BranchOf(s: string): Option<string> {
    if s == "" then None
    else if BranchAt(s) then Some(BranchValue(s))
    else BranchOf(s[1..])
  }

  /** Every match of `branch=[^;]+` replaced by `branch=` and the new value. */
  function SetBranch(s: string, b: string): string
    decreases |s|
  {
    if s == "" then ""
    else if BranchAt(s) then BRANCH + (b + SetBranch(s[|BRANCH| + |BranchValue(s)|..], b))
    else [s[0]] + SetBranch(s[1..], b)
  }

  /** The transaction a message belongs to; without a branch, a value made up on the spot. */
  function TransactionId(m: Message, fallback: string): string {
    var via := Get(m.headers, "via");
    var branch := if via.Some? then BranchOf(via.value) else None;
    if branch.Some? then branch.value else fallback
  }

  // ---------- Replacing the branch ----------

  predicate IsBranch(b: string) { b != "" && forall i | 0 <= i < |b| :: NotSemicolon(b[i]) }

  /** No parameter begins in text without its first letter. */
  lemma {:induction false} BranchSkip(front: string, s: string)
    requires 'b' !in front
    ensures BranchOf(front + s) == BranchOf(s)
    decreases |front|
  {
    if front == "" {
      assert front + s == s;
    } else {
      var t := front + s;
      assert t[0] == front[0] && t[0] != 'b';
      assert !BranchAt(t) by { assert BRANCH[0] == 'b'; }
      hide BranchAt;
      assert t[1..] == front[1..] + s;
      BranchSkip(front[1..], s);
    }
  }

  lemma NoBranch(s: string, b: string)
    requires BranchOf(s) == None
    ensures SetBranch(s, b) == s
    decreases |s|
  {
    hide BranchAt;
    if s != "" {
      NoBranch(s[1..], b);
      assert [s[0]] + s[1..] == s;
    }
  }

  /** What follows a branch value is the end or a semicolon. */
  lemma AfterBranch(s: string)
    requires BranchAt(s)
    ensures var rest := s[|BRANCH| + |BranchValue(s)|..]; rest == "" || rest[0] == ';'
  {
    var t := s[|BRANCH|..];
    var n := Span(t, NotSemicolon);
    assert s[|BRANCH| + n..] == t[n..];
  }

  lemma SetBranchFront(s: string, b: string)
    requires s == "" || s[0] == ';'
    ensures SetBranch(s, b) == "" || SetBranch(s, b)[0] == ';'
  {
    if s != "" {
      assert !BranchAt(s) by { assert BRANCH[0] == 'b'; }
    }
  }

  lemma BranchRead(b: string, rest: string)
    requires IsBranch(b) && (rest == "" || rest[0] == ';')
    ensures BranchOf(BRANCH + (b + rest)) == Some(b)
  {
    var s := BRANCH + (b + rest);
    assert s[|BRANCH|..] == b + rest;
    assert (b + rest)[0] == b[0];
    assert BRANCH <= s && s[|BRANCH|] == b[0];
    assert BranchAt(s);
    assert Span(b + rest, NotSemicolon) == |b| by {
      SpanAll(b, rest);
    }
    assert (b + rest)[..|b|] == b;
  }

  lemma SpanAll(b: string, rest: string)
    requires (forall i | 0 <= i < |b| :: NotSemicolon(b[i])) && (rest == "" || rest[0] == ';')
    ensures Span(b + rest, NotSemicolon) == |b|
  {
    assert forall i | 0 <= i < |b| :: (b + rest)[i] == b[i];
    assert |b| < |b + rest| ==> (b + rest)[|b|] == rest[0];
    SpanIs(b + rest, NotSemicolon, |b|);
  }

  /** Replacing keeps every leading text in which no parameter can begin. */
  lemma {:induction false} FrontKept(t: string, b: string, w: string)
    requires 'b' !in w
    ensures w <= SetBranch(t, b) <==> w <= t
    decreases |w|
  {
    if w != "" && t != "" {
      var out := SetBranch(t, b);
      if BranchAt(t) {
        assert t[0] == 'b' && out[0] == 'b';
      } else {
        var rest := SetBranch(t[1..], b);
        assert out == [t[0]] + rest;
        FrontKept(t[1..], b, w[1..]);
        FrontCons(w, t[0], t[1..]);
        FrontCons(w, t[0], rest);
        assert [t[0]] + t[1..] == t;
      }
    }
  }

  lemma FrontCons(w: string, c: char, t: string)
    requires w != ""
    ensures w <= [c] + t <==> w[0] == c && w[1..] <= t
  {
    if w[0] == c && w[1..] <= t { assert w == [c] + w[1..]; }
  }

  lemma {:induction false} NothingToSet(t: string, b: string)
    requires 'b' !in t
    ensures SetBranch(t, b) == t
    decreases |t|
  {
    if t != "" {
      assert t[0] != 'b';
      assert !BranchAt(t) by { assert BRANCH[0] == 'b'; }
      NothingToSet(t[1..], b);
      assert [t[0]] + t[1..] == t;
    }
  }

  /** Where no parameter began, none begins after replacing the later ones. */
  lemma NoneBefore(s: string, b: string)
    requires s != "" && !BranchAt(s)
    ensures !BranchAt([s[0]] + SetBranch(s[1..], b))
  {
    var t := s[1..];
    var o := SetBranch(t, b);
    var tail := "ranch=";
    assert BRANCH == ['b'] + tail;
    assert s == [s[0]] + t;
    FrontCons(BRANCH, s[0], t);
    FrontCons(BRANCH, s[0], o);
    FrontKept(t, b, tail);
    FrontKept(t, b, tail + ";");
    if tail <= t {
      if t == tail {
        NothingToSet(t, b);
      } else if s[0] == 'b' {
        assert t[6] == s[7] == ';';
        assert tail + ";" <= t by { assert t[..7] == tail + ";"; }
        assert o[6] == (tail + ";")[6];
      }
    }
  }

  /** A Via that had a branch parameter has the new one after replacing. */
  lemma {:induction false} BranchSet(s: string, b: string)
    requires IsBranch(b) && BranchOf(s).Some?
    ensures BranchOf(SetBranch(s, b)) == Some(b)
    decreases |s|
  {
    if BranchAt(s) {
      var rest := s[|BRANCH| + |BranchValue(s)|..];
      AfterBranch(s);
      SetBranchFront(rest, b);
      hide BranchOf;
      BranchRead(b, SetBranch(rest, b));
    } else {
      NoneBefore(s, b);
      BranchSet(s[1..], b);
      var o := SetBranch(s[1..], b);
      hide BranchAt;
      assert ([s[0]] + o)[1..] == o;
    }
  }
}
