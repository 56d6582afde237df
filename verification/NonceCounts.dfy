/** The nonce counts a run of challenges prints into its Authorization headers. */
module NonceCounts {
  import opened Text
  import opened DigestAuth

  /** The printed count determines the number. */
  function HexVal(s: string): int {
    if s == "" then 0
    else
      var c := s[|s| - 1];
      16 * HexVal(s[..|s| - 1]) + (if IsDigit(c) then c as int - '0' as int else c as int - 'a' as int + 10)
  }

  lemma {:induction false} HexRead(n: nat, width: nat)
    ensures HexVal(Hex(n, width)) == n
    decreases n, width
  {
    if n != 0 || width != 0 {
      var w := if width == 0 then 0 else width - 1;
      HexRead(n / 16, w);
      var front, d := Hex(n / 16, w), HexDigit(n % 16);
      assert Hex(n, width) == front + [d];
      assert (front + [d])[..|front|] == front;
      assert n == 16 * (n / 16) + n % 16;
    }
  }

  datatype Use =
    | Learn(realm: string, user: string, password: string)
    | Answer(verb: string, uri: string, params: map<string, string>, body: Option<string>, cnonce: string)

  function Proceed(hash: Hash, auth: Auth, u: Use): Auth {
    match u
    case Learn(realm, user, password) => auth.(credentials := auth.credentials[realm := (user, password)])
    case Answer(verb, uri, params, body, cnonce) => Authorize(hash, auth, verb, uri, params, body, cnonce).0
  }

  /** What a use does to the count of nonce `n`: nothing, count it unseen, or count and print it. */
  datatype Mark = Other | Silent | Printed

  function MarkOf(auth: Auth, u: Use, n: string): Mark {
    if !u.Answer? || Nonce(u.params) != n || !KnownRealm(auth, u.params) then Other
    else if Supported(Algorithm(u.params)) && Given(Param(u.params, "qop")) then Printed
    else Silent
  }

  function Marks(hash: Hash, auth: Auth, us: seq<Use>, n: string): (r: seq<Mark>)
    ensures |r| == |us|
    decreases |us|
  {
    if us == [] then [] else [MarkOf(auth, us[0], n)] + Marks(hash, Proceed(hash, auth, us[0]), us[1..], n)
  }

  /** The counts printed for nonce `n`, in order. */
  function Emissions(hash: Hash, auth: Auth, us: seq<Use>, n: string): seq<nat>
    decreases |us|
  {
    if us == [] then []
    else
      var after := Proceed(hash, auth, us[0]);
      (if MarkOf(auth, us[0], n) == Printed then [Count(after, n)] else []) + Emissions(hash, after, us[1..], n)
  }

  /** The uses that print a count for nonce `n`, each with the Authorization value it makes. */
  function Printing(hash: Hash, auth: Auth, us: seq<Use>, n: string): seq<(Use, Option<string>)>
    decreases |us|
  {
    if us == [] then []
    else
      var u, rest := us[0], Printing(hash, Proceed(hash, auth, us[0]), us[1..], n);
      if MarkOf(auth, u, n) == Printed
      then [(u, Authorize(hash, auth, u.verb, u.uri, u.params, u.body, u.cnonce).1)] + rest
      else rest
  }

  /** How such a value ends: the count, eight digits wide, and the client nonce. */
  function CountTail(nc: nat, cnonce: string): string {
    (", nc=" + Hex(nc, 8)) + (", " + Quoted("cnonce", cnonce))
  }

  predicate CarriesCount(use: (Use, Option<string>), nc: nat) {
    use.0.Answer? && use.1.Some? && EndsWith(use.1.value, CountTail(nc, use.0.cnonce))
  }

  lemma JoinTail(sep: string, fs: seq<string>, a: string, b: string)
    requires fs != []
    ensures EndsWith(Join(sep, fs + [a, b]), (sep + a) + (sep + b))
  {
    JoinConcat(sep, fs, [a, b]);
    assert [a, b][1..] == [b] && Join(sep, [b]) == b;
    var front, tail := Join(sep, fs), (sep + a) + (sep + b);
    assert sep + Join(sep, [a, b]) == tail;
    assert (front + tail)[|front|..] == tail;
  }

  lemma EndsLater(a: string, b: string, s: string, suffix: string)
    requires EndsWith(s, suffix)
    ensures EndsWith(a + (b + s), suffix)
  {
    var t := a + (b + s);
    assert t[|t| - |suffix|..] == s[|s| - |suffix|..];
  }

  /** The fields of a value with qop end with qop, count and client nonce. */
  lemma QopFields(hash: Hash, credentials: (string, string), verb: string, uri: string, params: map<string, string>,
                  body: Option<string>, nc: nat, cnonce: string)
    requires Given(Param(params, "qop"))
    ensures var fs := HeaderFields(hash, credentials, verb, uri, params, body, nc, cnonce);
      |fs| > 2 && fs[|fs| - 2..] == ["nc=" + Hex(nc, 8), Quoted("cnonce", cnonce)]
  {
    hide Digest, Hex, Quoted, Upper;
  }

  lemma QopText(hash: Hash, credentials: (string, string), verb: string, uri: string, params: map<string, string>,
                body: Option<string>, nc: nat, cnonce: string)
    requires Given(Param(params, "qop"))
    ensures EndsWith(HeaderText(hash, credentials, verb, uri, params, body, nc, cnonce), CountTail(nc, cnonce))
  {
    hide HeaderFields, Given, Param, Join, Hex, Quoted, EndsWith;
    QopFields(hash, credentials, verb, uri, params, body, nc, cnonce);
    var fs := HeaderFields(hash, credentials, verb, uri, params, body, nc, cnonce);
    var front, count, last := fs[..|fs| - 2], "nc=" + Hex(nc, 8), Quoted("cnonce", cnonce);
    assert front + [count, last] == fs;
    JoinTail(", ", front, count, last);
    assert ", " + count == ", nc=" + Hex(nc, 8);
    EndsLater("Digest ", "", Join(", ", fs), CountTail(nc, cnonce));
    assert "" + Join(", ", fs) == Join(", ", fs);
  }

  /** A printed use carries the count in its header. */
  lemma PrintedHeader(hash: Hash, auth: Auth, u: Use, n: string)
    requires MarkOf(auth, u, n) == Printed
    ensures CarriesCount((u, Authorize(hash, auth, u.verb, u.uri, u.params, u.body, u.cnonce).1),
                         Count(Proceed(hash, auth, u), n))
  {
    var nc := Count(Proceed(hash, auth, u), n);
    assert Authorize(hash, auth, u.verb, u.uri, u.params, u.body, u.cnonce).1
        == Some(HeaderText(hash, auth.credentials[ParamOr(u.params, "realm", "")], u.verb, u.uri, u.params, u.body,
                           nc, u.cnonce));
    QopText(hash, auth.credentials[ParamOr(u.params, "realm", "")], u.verb, u.uri, u.params, u.body, nc, u.cnonce);
    hide HeaderText, CountTail;
  }

  /** The k-th Authorization value printed for a nonce ends with the k-th count and its client nonce. */
  lemma {:induction false} HeadersCarryCounts(hash: Hash, auth: Auth, us: seq<Use>, n: string)
    ensures var ps, e := Printing(hash, auth, us, n), Emissions(hash, auth, us, n);
      |ps| == |e| && forall k | 0 <= k < |ps| :: CarriesCount(ps[k], e[k])
    decreases |us|
  {
    hide Proceed, MarkOf, Count, CarriesCount, Authorize;
    if us != [] {
      HeadersCarryCounts(hash, Proceed(hash, auth, us[0]), us[1..], n);
      if MarkOf(auth, us[0], n) == Printed { PrintedHeader(hash, auth, us[0], n); }
    }
  }

  /** Only a use of this nonce, and only with known credentials, changes its count: by one. */
  lemma ProceedCount(hash: Hash, auth: Auth, u: Use, n: string)
    ensures Count(Proceed(hash, auth, u), n) == Count(auth, n) + if MarkOf(auth, u, n) == Other then 0 else 1
  {
    hide HeaderText;
  }

  /** The numbers that marks print, counting from `c`. */
  function Numbers(ms: seq<Mark>, c: nat): seq<nat> {
    if ms == [] then []
    else if ms[0] == Other then Numbers(ms[1..], c)
    else if ms[0] == Silent then Numbers(ms[1..], c + 1)
    else [c + 1] + Numbers(ms[1..], c + 1)
  }

  lemma {:induction false} EmissionsAreNumbers(hash: Hash, auth: Auth, us: seq<Use>, n: string)
    ensures Emissions(hash, auth, us, n) == Numbers(Marks(hash, auth, us, n), Count(auth, n))
    decreases |us|
  {
    hide Proceed, MarkOf, Count;
    if us != [] {
      var after := Proceed(hash, auth, us[0]);
      ProceedCount(hash, auth, us[0], n);
      EmissionsAreNumbers(hash, after, us[1..], n);
      var m, rest := MarkOf(auth, us[0], n), Marks(hash, after, us[1..], n);
      assert ([m] + rest)[0] == m && ([m] + rest)[1..] == rest;
      assert [] + Emissions(hash, after, us[1..], n) == Emissions(hash, after, us[1..], n);
    }
  }

  /** Strictly increasing, and all above `c`. */
  predicate Rising(c: nat, e: seq<nat>) {
    && (forall i | 0 <= i < |e| :: e[i] > c)
    && (forall i, j | 0 <= i < j < |e| :: e[i] < e[j])
  }

  /** Printed counts strictly increase and start above the count so far: at 1 or later for a new nonce. */
  lemma {:induction false} EmissionsRise(hash: Hash, auth: Auth, us: seq<Use>, n: string)
    ensures Rising(Count(auth, n), Emissions(hash, auth, us, n))
    decreases |us|
  {
    hide Proceed, MarkOf, Count;
    if us != [] {
      var after := Proceed(hash, auth, us[0]);
      ProceedCount(hash, auth, us[0], n);
      EmissionsRise(hash, after, us[1..], n);
      var rest := Emissions(hash, after, us[1..], n);
      if MarkOf(auth, us[0], n) == Printed {
        RiseCons(Count(after, n), rest);
      } else {
        assert Emissions(hash, auth, us, n) == rest;
      }
    }
  }

  lemma RiseCons(c: nat, rest: seq<nat>)
    requires Rising(c, rest)
    ensures forall b: nat | b < c :: Rising(b, [c] + rest)
  {
  }

  // ---------- Consecutive counts ----------

  function Range(c: nat, k: nat): (r: seq<nat>)
    ensures |r| == k
    ensures forall i | 0 <= i < k :: r[i] == c + 1 + i
  {
    seq(k, i requires 0 <= i < k => c + 1 + i)
  }

  /** No use is counted unseen before one that is printed. */
  predicate NoGap(ms: seq<Mark>) {
    forall i, j | 0 <= i < j < |ms| :: ms[i] == Silent ==> ms[j] != Printed
  }

  lemma {:induction false} NumbersAbove(ms: seq<Mark>, c: nat)
    ensures forall i | 0 <= i < |Numbers(ms, c)| :: Numbers(ms, c)[i] > c
    ensures Printed in ms <==> Numbers(ms, c) != []
    decreases |ms|
  {
    if ms != [] {
      NumbersAbove(ms[1..], c);
      NumbersAbove(ms[1..], c + 1);
      assert ms == [ms[0]] + ms[1..];
    }
  }

  lemma NoGapCons(m: Mark, ms: seq<Mark>)
    ensures NoGap([m] + ms) <==> NoGap(ms) && (m == Silent ==> Printed !in ms)
  {
    var all := [m] + ms;
    assert forall i | 1 <= i < |all| :: all[i] == ms[i - 1];
    if NoGap(all) {
      forall i, j | 0 <= i < j < |ms| && ms[i] == Silent ensures ms[j] != Printed {
        assert all[i + 1] == ms[i] && all[j + 1] == ms[j];
      }
      if m == Silent {
        forall j | 0 <= j < |ms| ensures ms[j] != Printed { assert all[0] == Silent && all[j + 1] == ms[j]; }
      }
    }
  }

  lemma RangeCons(c: nat, k: nat)
    ensures Range(c, k + 1) == [c + 1] + Range(c + 1, k)
  {
  }

  lemma {:induction false} NumbersExact(ms: seq<Mark>, c: nat)
    ensures Numbers(ms, c) == Range(c, |Numbers(ms, c)|) <==> NoGap(ms)
    decreases |ms|
  {
    if ms != [] {
      var t := ms[1..];
      assert ms == [ms[0]] + t;
      NoGapCons(ms[0], t);
      hide NoGap;
      if ms[0] == Other {
        NumbersExact(t, c);
      } else if ms[0] == Silent {
        var ns := Numbers(t, c + 1);
        NumbersAbove(t, c + 1);
        NumbersExact(t, c + 1);
        if ns == [] {
          assert Range(c, 0) == [] && Range(c + 1, 0) == [];
        } else {
          assert ns[0] > c + 1 && Range(c, |ns|)[0] == c + 1;
        }
      } else {
        var ns := Numbers(t, c + 1);
        NumbersExact(t, c + 1);
        RangeCons(c, |ns|);
        hide Range;
        assert ([c + 1] + ns)[1..] == ns && ([c + 1] + Range(c + 1, |ns|))[1..] == Range(c + 1, |ns|);
      }
    }
  }

  /**
   * The printed counts are consecutive from the count so far, if and only if no use of the nonce
   * with an unsupported algorithm or without qop comes before one that prints.
   */
  lemma EmissionsConsecutive(hash: Hash, auth: Auth, us: seq<Use>, n: string)
    ensures var e := Emissions(hash, auth, us, n);
      e == Range(Count(auth, n), |e|) <==> NoGap(Marks(hash, auth, us, n))
  {
    EmissionsAreNumbers(hash, auth, us, n);
    NumbersExact(Marks(hash, auth, us, n), Count(auth, n));
  }

  // ---------- Other nonces ----------

  predicate Concerns(u: Use, n: string) { u.Learn? || Nonce(u.params) == n }

  function Only(us: seq<Use>, n: string): seq<Use> {
    if us == [] then [] else (if Concerns(us[0], n) then [us[0]] else []) + Only(us[1..], n)
  }

  /** Two authenticators that agree on credentials and on this nonce. */
  predicate Alike(a: Auth, b: Auth, n: string) { a.credentials == b.credentials && Count(a, n) == Count(b, n) }

  lemma ProceedAlike(hash: Hash, a: Auth, b: Auth, u: Use, n: string)
    requires Alike(a, b, n)
    ensures Alike(Proceed(hash, a, u), Proceed(hash, b, u), n) && MarkOf(a, u, n) == MarkOf(b, u, n)
    ensures !Concerns(u, n) ==> Alike(Proceed(hash, a, u), b, n) && MarkOf(a, u, n) == Other
  {
    hide HeaderText, Upper;
  }

  /** Challenges that carry other nonces do not affect the counts printed for this one. */
  lemma {:induction false} OtherNoncesIrrelevant(hash: Hash, a: Auth, b: Auth, us: seq<Use>, n: string)
    requires Alike(a, b, n)
    ensures Emissions(hash, a, us, n) == Emissions(hash, b, Only(us, n), n)
    decreases |us|
  {
    hide Proceed, MarkOf, Alike, Concerns;
    if us != [] {
      var u, rest := us[0], Only(us[1..], n);
      ProceedAlike(hash, a, b, u, n);
      if Concerns(u, n) {
        OtherNoncesIrrelevant(hash, Proceed(hash, a, u), Proceed(hash, b, u), us[1..], n);
        AlikeCount(Proceed(hash, a, u), Proceed(hash, b, u), n);
        assert ([u] + rest)[0] == u && ([u] + rest)[1..] == rest;
      } else {
        OtherNoncesIrrelevant(hash, Proceed(hash, a, u), b, us[1..], n);
        assert [] + rest == rest;
        assert [] + Emissions(hash, Proceed(hash, a, u), us[1..], n)
          == Emissions(hash, Proceed(hash, a, u), us[1..], n);
      }
    }
  }

  lemma AlikeCount(a: Auth, b: Auth, n: string)
    requires Alike(a, b, n)
    ensures Count(a, n) == Count(b, n)
  {
  }
}
