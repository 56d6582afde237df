/**
 Python text primitives the SIP and SDP code is written in: stripping, splitting, joining,
 decimal numbers and the greedy character-class spans its regular expressions are made of.
 */
module Text {

  datatype Option<+T> = None | Some(value: T) {
    predicate IsFailure() { None? }
    function PropagateFailure<U>(): Option<U>
      requires None?
    { None }
    function Extract(): T
      requires Some?
    { value }
  }

  /** Put what a loop has collected in front of what the remaining iterations yield. */
  function Prefixed<T>(xs: seq<T>, o: Option<seq<T>>): Option<seq<T>> {
    if o.None? then None else Some(xs + o.value)
  }

  lemma PrefixedNothing<T>(o: Option<seq<T>>)
    ensures Prefixed([], o) == o
  {
    if o.Some? { assert [] + o.value == o.value; }
  }

  lemma PrefixedCons<T>(xs: seq<T>, x: T, o: Option<seq<T>>)
    ensures Prefixed(xs, if o.None? then None else Some([x] + o.value)) == Prefixed(xs + [x], o)
  {
    if o.Some? { assert xs + ([x] + o.value) == xs + [x] + o.value; }
  }

  const CRLF: string := "\r\n"

  // ---------- Character classes ----------

  /** The characters for which `str.isspace` holds; `\s` and `str.strip` use the same set. */
  predicate IsSpace(c: char) {
    || '\t' <= c <= '\r' || '\U{1c}' <= c <= ' ' || c == '\U{85}' || c == '\U{a0}'
    || c == '\U{1680}' || '\U{2000}' <= c <= '\U{200a}' || '\U{2028}' <= c <= '\U{2029}'
    || c == '\U{202f}' || c == '\U{205f}' || c == '\U{3000}'
  }

  predicate NotSpace(c: char) { !IsSpace(c) }

  /** The characters at which `str.splitlines` ends a line. */
  predicate IsLineBreak(c: char) {
    '\n' <= c <= '\r' || '\U{1c}' <= c <= '\U{1e}' || c == '\U{85}' || '\U{2028}' <= c <= '\U{2029}'
  }

  predicate NotLineBreak(c: char) { !IsLineBreak(c) }

  predicate IsDigit(c: char) { '0' <= c <= '9' }

  ghost predicate All(s: string, p: char -> bool) { forall i | 0 <= i < |s| :: p(s[i]) }

  // ---------- Spans and the matcher steps built from them ----------

  /** How many leading characters of `s` a greedy `[p]*` consumes. */
  function Span(s: string, p: char -> bool): (n: nat)
    ensures n <= |s|
    ensures forall i | 0 <= i < n :: p(s[i])
    ensures n < |s| ==> !p(s[n])
  {
    if s == [] || !p(s[0]) then 0 else Span(s[1..], p) + 1
  }

  lemma SpanIs(s: string, p: char -> bool, n: nat)
    requires n <= |s|
    requires forall i | 0 <= i < n :: p(s[i])
    requires n < |s| ==> !p(s[n])
    ensures Span(s, p) == n
  {
  }

  lemma SpanConcat(a: string, b: string, p: char -> bool)
    requires All(a, p)
    requires b == [] || !p(b[0])
    ensures Span(a + b, p) == |a|
  {
    SpanIs(a + b, p, |a|);
  }

  /** Consume a literal. */
  function Eat(lit: string, s: string): (r: Option<string>)
    ensures r.Some? ==> s == lit + r.value
  {
    if lit <= s then Some(s[|lit|..]) else None
  }

  /** Consume a greedy `[p]+`: the text taken and what is left. */
  function Many1(p: char -> bool, s: string): (r: Option<(string, string)>)
    ensures r.Some? ==> s == r.value.0 + r.value.1
    ensures r.Some? ==> r.value.0 != "" && All(r.value.0, p)
    ensures r.Some? ==> r.value.1 == "" || !p(r.value.1[0])
  {
    var n := Span(s, p);
    if n == 0 then None else Some((s[..n], s[n..]))
  }

  lemma EatConcat(lit: string, r: string)
    ensures Eat(lit, lit + r) == Some(r)
  {
    assert (lit + r)[|lit|..] == r;
  }

  lemma Many1Concat(p: char -> bool, a: string, b: string)
    requires a != "" && All(a, p)
    requires b == "" || !p(b[0])
    ensures Many1(p, a + b) == Some((a, b))
  {
    SpanConcat(a, b, p);
    assert (a + b)[..|a|] == a;
    assert (a + b)[|a|..] == b;
  }

  // ---------- Stripping ----------

  function LStrip(s: string): string { s[Span(s, IsSpace)..] }

  function RStrip(s: string): (r: string)
    ensures r <= s
    ensures r == "" || NotSpace(r[|r| - 1])
    ensures All(s[|r|..], IsSpace)
  {
    if s == "" || !IsSpace(s[|s| - 1]) then s
    else
      var r := RStrip(s[..|s| - 1]);
      assert All(s[|r|..], IsSpace) by {
        forall i | 0 <= i < |s| - |r| ensures IsSpace(s[|r|..][i]) {
          if i < |s| - 1 - |r| { assert s[|r|..][i] == s[..|s| - 1][|r|..][i]; }
        }
      }
      r
  }

  function Strip(s: string): string { RStrip(LStrip(s)) }

  /** Nothing for `str.strip` to remove. */
  predicate Trim(s: string) {
    s == "" || (NotSpace(s[0]) && NotSpace(s[|s| - 1]))
  }

  lemma StripTrim(s: string)
    requires Trim(s)
    ensures LStrip(s) == s && RStrip(s) == s && Strip(s) == s
  {
  }

  lemma StripIsTrim(s: string)
    ensures Trim(Strip(s))
  {
    var l := LStrip(s);
    if Strip(s) != "" { assert Strip(s)[0] == l[0]; }
  }

  lemma RStripPad(a: string, b: string)
    requires All(b, IsSpace)
    ensures RStrip(a + b) == RStrip(a)
    decreases |b|
  {
    if b == "" {
      assert a + b == a;
    } else {
      var b' := b[..|b| - 1];
      assert (a + b)[..|a + b| - 1] == a + b';
      assert (a + b)[|a + b| - 1] == b[|b| - 1];
      forall i | 0 <= i < |b'| ensures IsSpace(b'[i]) { assert b'[i] == b[i]; }
      RStripPad(a, b');
    }
  }

  lemma StripPad(a: string, b: string)
    requires a != "" && Trim(a) && All(b, IsSpace)
    ensures Strip(a + b) == a
  {
    assert RStrip(a) == a && NotSpace(a[0]);
    RStripPad(a, b);
    hide IsSpace, RStrip;
    assert (a + b)[0] == a[0];
  }

  lemma RStripConcat(a: string, b: string)
    requires RStrip(b) != ""
    ensures RStrip(a + b) == a + RStrip(b)
  {
    hide IsSpace;
    var r := RStrip(b);
    var ar := a + r;
    assert RStrip(ar) == ar by {
      assert ar[|ar| - 1] == r[|r| - 1];
    }
    hide RStrip;
    assert All(b[|r|..], IsSpace);
    assert a + b == ar + b[|r|..];
    RStripPad(ar, b[|r|..]);
  }

  // ---------- Joining and splitting ----------

  function Join(sep: string, parts: seq<string>): string {
    if |parts| == 0 then ""
    else if |parts| == 1 then parts[0]
    else parts[0] + (sep + Join(sep, parts[1..]))
  }

  /** Index of the first occurrence of `p` in `s`, or -1. */
  function Find<T(==)>(s: seq<T>, p: seq<T>): (i: int)
    requires p != []
    ensures -1 <= i && i + |p| <= |s| + |p|
    ensures i >= 0 ==> i + |p| <= |s| && s[i..i + |p|] == p
  {
    if |s| < |p| then -1
    else if p <= s then 0
    else
      var r := Find(s[1..], p);
      if r < 0 then -1
      else
        assert s[1..][r..r + |p|] == s[r + 1..r + 1 + |p|];
        r + 1
  }

  /** Nothing starts before the first element that can begin the pattern. */
  lemma FindSkip<T>(a: seq<T>, b: seq<T>, p: seq<T>)
    requires p != []
    requires p[0] !in a
    ensures Find(a + b, p) == if Find(b, p) < 0 then -1 else |a| + Find(b, p)
    decreases |a|
  {
    if a == [] {
      assert a + b == b;
    } else {
      assert (a + b)[0] == a[0];
      assert (a + b)[1..] == a[1..] + b;
      FindSkip(a[1..], b, p);
      if |a + b| < |p| { FindShort(b, p); }
    }
  }

  lemma FindShort<T>(s: seq<T>, p: seq<T>)
    requires p != [] && |s| < |p|
    ensures Find(s, p) == -1
  {
  }

  lemma FindAfter<T>(a: seq<T>, b: seq<T>, p: seq<T>)
    requires p != []
    requires p[0] !in a
    ensures Find(a + (p + b), p) == |a|
  {
    FindSkip(a, p + b, p);
    assert p <= p + b;
  }

  /** `str.split(sep)`. */
  function SplitOn(s: string, sep: string): (r: seq<string>)
    requires sep != ""
    ensures r != []
    decreases |s|
  {
    var i := Find(s, sep);
    if i < 0 then [s] else [s[..i]] + SplitOn(s[i + |sep|..], sep)
  }

  lemma SplitOnCons(a: string, b: string, sep: string)
    requires sep != "" && sep[0] !in a
    ensures SplitOn(a + (sep + b), sep) == [a] + SplitOn(b, sep)
  {
    hide Find;
    var s := a + (sep + b);
    assert Find(s, sep) == |a| by { FindAfter(a, b, sep); }
    assert s[..|a|] == a;
    assert s[|a| + |sep|..] == b by { assert s[|a|..] == sep + b; }
  }

  lemma SplitOnNone(a: string, sep: string)
    requires sep != "" && sep[0] !in a
    ensures SplitOn(a, sep) == [a]
  {
    FindSkip(a, "", sep);
    assert a + "" == a;
    FindShort("", sep);
  }

  lemma {:induction false} SplitOnJoin(parts: seq<string>, sep: string)
    requires sep != "" && parts != []
    requires forall i | 0 <= i < |parts| :: sep[0] !in parts[i]
    ensures SplitOn(Join(sep, parts), sep) == parts
    decreases |parts|
  {
    if |parts| == 1 {
      SplitOnNone(parts[0], sep);
    } else {
      SplitOnCons(parts[0], Join(sep, parts[1..]), sep);
      SplitOnJoin(parts[1..], sep);
      assert parts == [parts[0]] + parts[1..];
    }
  }

  lemma {:induction false} JoinSplitOn(s: string, sep: string)
    requires sep != ""
    ensures Join(sep, SplitOn(s, sep)) == s
    decreases |s|
  {
    hide Find;
    var i := Find(s, sep);
    if i >= 0 {
      var rest := s[i + |sep|..];
      JoinSplitOn(rest, sep);
      assert s == s[..i] + (sep + rest);
      assert ([s[..i]] + SplitOn(rest, sep))[1..] == SplitOn(rest, sep);
    }
  }

  lemma {:induction false} JoinConcat(sep: string, a: seq<string>, b: seq<string>)
    requires a != [] && b != []
    ensures Join(sep, a + b) == Join(sep, a) + (sep + Join(sep, b))
    decreases |a|
  {
    assert (a + b)[0] == a[0];
    if |a| == 1 {
      assert (a + b)[1..] == b;
    } else {
      assert (a + b)[1..] == a[1..] + b;
      JoinConcat(sep, a[1..], b);
      assert Join(sep, a + b) == a[0] + (sep + (Join(sep, a[1..]) + (sep + Join(sep, b))));
      assert Join(sep, a) + (sep + Join(sep, b)) == (a[0] + (sep + Join(sep, a[1..]))) + (sep + Join(sep, b));
      assert a[0] + (sep + (Join(sep, a[1..]) + (sep + Join(sep, b))))
        == (a[0] + (sep + Join(sep, a[1..]))) + (sep + Join(sep, b));
    }
  }

  /** `str.split()`: maximal runs of non-space characters. */
  function SplitWs(s: string): (r: seq<string>)
    decreases |s|
  {
    var t := LStrip(s);
    if t == "" then []
    else
      var n := Span(t, NotSpace);
      [t[..n]] + SplitWs(t[n..])
  }

  predicate IsWord(w: string) { w != "" && forall i | 0 <= i < |w| :: NotSpace(w[i]) }

  lemma {:induction false} SplitWsWords(s: string)
    ensures forall i | 0 <= i < |SplitWs(s)| :: IsWord(SplitWs(s)[i])
    decreases |s|
  {
    hide IsSpace;
    var t := LStrip(s);
    if t != "" {
      var n := Span(t, NotSpace);
      SplitWsWords(t[n..]);
      assert IsWord(t[..n]);
    }
  }

  lemma SplitWsCons(w: string, rest: string)
    requires IsWord(w)
    requires rest == "" || IsSpace(rest[0])
    ensures SplitWs(w + rest) == [w] + SplitWs(rest)
  {
    var s := w + rest;
    assert s[0] == w[0];
    SpanIs(s, IsSpace, 0);
    SpanConcat(w, rest, NotSpace);
    assert s[..|w|] == w && s[|w|..] == rest;
  }

  lemma SplitWsSkip(c: char, s: string)
    requires IsSpace(c)
    ensures SplitWs([c] + s) == SplitWs(s)
  {
    assert ([c] + s)[1..] == s;
    assert LStrip([c] + s) == LStrip(s);
  }

  lemma {:induction false} SplitWsJoin(words: seq<string>)
    requires forall i | 0 <= i < |words| :: IsWord(words[i])
    ensures SplitWs(Join(" ", words)) == words
    decreases |words|
  {
    if |words| == 1 {
      assert words[0] + "" == words[0];
      SplitWsCons(words[0], "");
      assert SplitWs("") == [];
    } else if |words| > 1 {
      var rest := Join(" ", words[1..]);
      SplitWsCons(words[0], " " + rest);
      SplitWsSkip(' ', rest);
      SplitWsJoin(words[1..]);
      assert words == [words[0]] + words[1..];
    }
  }

  /** `str.splitlines()`. */
  function SplitLines(s: string): seq<string>
    decreases |s|
  {
    if s == "" then []
    else
      var n := Span(s, NotLineBreak);
      if n == |s| then [s]
      else [s[..n]] + SplitLines(s[n + (if "\r\n" <= s[n..] then 2 else 1)..])
  }

  predicate IsLine(l: string) { l != "" && Trim(l) && forall i | 0 <= i < |l| :: NotLineBreak(l[i]) }

  lemma StripLine(l: string)
    requires IsLine(l)
    ensures Strip(l) == l
  {
    hide Strip;
    StripTrim(l);
  }

  lemma SplitLinesCons(l: string, rest: string)
    requires All(l, NotLineBreak)
    ensures SplitLines(l + (CRLF + rest)) == [l] + SplitLines(rest)
  {
    var tail := CRLF + rest;
    var s := l + tail;
    assert Span(s, NotLineBreak) == |l| by { SpanConcat(l, tail, NotLineBreak); }
    hide Span, IsLineBreak;
    assert s[|l|..] == tail && "\r\n" <= tail;
    assert s[|l| + 2..] == rest;
    assert s[..|l|] == l;
  }

  lemma {:induction false} SplitLinesJoin(lines: seq<string>)
    requires forall i | 0 <= i < |lines| :: IsLine(lines[i])
    ensures SplitLines(Join(CRLF, lines)) == lines
    decreases |lines|
  {
    hide Trim, IsLineBreak;
    if |lines| == 1 {
      assert lines[0] + "" == lines[0];
      SpanConcat(lines[0], "", NotLineBreak);
    } else if |lines| > 1 {
      hide SplitLines;
      SplitLinesCons(lines[0], Join(CRLF, lines[1..]));
      SplitLinesJoin(lines[1..]);
      assert lines == [lines[0]] + lines[1..];
    }
  }

  lemma {:induction false} JoinEnds(sep: string, lines: seq<string>)
    requires lines != [] && lines[0] != "" && lines[|lines| - 1] != ""
    ensures Join(sep, lines) != ""
    ensures Join(sep, lines)[0] == lines[0][0]
    ensures var j, l := Join(sep, lines), lines[|lines| - 1]; j[|j| - 1] == l[|l| - 1]
    decreases |lines|
  {
    if |lines| > 1 {
      var rest := lines[1..];
      if |rest| > 1 && rest[0] == "" {
        JoinLast(sep, rest);
      } else {
        JoinEnds(sep, rest);
      }
    }
  }

  lemma {:induction false} JoinLast(sep: string, lines: seq<string>)
    requires lines != [] && lines[|lines| - 1] != ""
    ensures Join(sep, lines) != ""
    ensures var j, l := Join(sep, lines), lines[|lines| - 1]; j[|j| - 1] == l[|l| - 1]
    decreases |lines|
  {
    if |lines| > 1 { JoinLast(sep, lines[1..]); }
  }

  // ---------- Letter case ----------

  function LowerChar(c: char): char {
    if 'A' <= c <= 'Z' then (c as int + 32) as char else c
  }

  function Lower(s: string): (r: string)
    ensures |r| == |s|
    ensures forall i | 0 <= i < |s| :: r[i] == LowerChar(s[i])
  {
    seq(|s|, i requires 0 <= i < |s| => LowerChar(s[i]))
  }

  function UpperChar(c: char): char {
    if 'a' <= c <= 'z' then (c as int - 32) as char else c
  }

  function Upper(s: string): (r: string)
    ensures |r| == |s|
    ensures forall i | 0 <= i < |s| :: r[i] == UpperChar(s[i])
  {
    seq(|s|, i requires 0 <= i < |s| => UpperChar(s[i]))
  }

  // ---------- Decimal numbers ----------

  function Digit(d: nat): (c: char)
    requires d < 10
    ensures IsDigit(c) && c as int == '0' as int + d
  {
    ('0' as int + d) as char
  }

  /** `str(n)`. */
  function NatStr(n: nat): (s: string)
    ensures s != "" && All(s, IsDigit)
  {
    if n < 10 then [Digit(n)] else NatStr(n / 10) + [Digit(n % 10)]
  }

  function NatVal(s: string): nat
    requires All(s, IsDigit)
  {
    if s == "" then 0
    else
      var t := s[..|s| - 1];
      assert forall i | 0 <= i < |t| :: t[i] == s[i];
      NatVal(t) * 10 + (s[|s| - 1] as int - '0' as int)
  }

  lemma {:induction false} NatValStr(n: nat)
    ensures NatVal(NatStr(n)) == n
  {
    if n >= 10 {
      NatValStr(n / 10);
      var s := NatStr(n);
      assert s[..|s| - 1] == NatStr(n / 10);
    }
  }

  function IntStr(i: int): string {
    if i >= 0 then NatStr(i) else "-" + NatStr(-i)
  }

  /** The digit strings `int()` accepts once the sign is gone: underscores only between digits. */
  predicate IsNumeral(s: string) {
    && s != "" && IsDigit(s[0]) && IsDigit(s[|s| - 1])
    && (forall i | 0 <= i < |s| :: IsDigit(s[i]) || s[i] == '_')
    && (forall i | 0 < i < |s| :: s[i] == '_' ==> s[i - 1] != '_')
  }

  function DropUnderscores(s: string): (r: string)
    requires forall i | 0 <= i < |s| :: IsDigit(s[i]) || s[i] == '_'
    ensures All(r, IsDigit)
  {
    if s == "" then ""
    else (if s[0] == '_' then "" else [s[0]]) + DropUnderscores(s[1..])
  }

  function UnsignedVal(s: string): Option<int> {
    if IsNumeral(s) then Some(NatVal(DropUnderscores(s))) else None
  }

  /** `int(s)`; None stands for the ValueError. */
  function ParseInt(s: string): Option<int> {
    var t := Strip(s);
    if "-" <= t then
      var n :- UnsignedVal(t[1..]);
      Some(-n)
    else UnsignedVal(if "+" <= t then t[1..] else t)
  }

  lemma {:induction false} DropNothing(s: string)
    requires All(s, IsDigit)
    ensures DropUnderscores(s) == s
    decreases |s|
  {
    if s != "" {
      assert s == [s[0]] + s[1..];
      DropNothing(s[1..]);
    }
  }

  lemma UnsignedDigits(s: string)
    requires s != "" && All(s, IsDigit)
    ensures UnsignedVal(s) == Some(NatVal(s))
  {
    DropNothing(s);
  }

  lemma ParseNatStr(n: nat)
    ensures ParseInt(NatStr(n)) == Some(n)
  {
    var s := NatStr(n);
    assert UnsignedVal(s) == Some(n) by { UnsignedDigits(s); NatValStr(n); }
    assert s[0] != '-' && s[0] != '+' && Strip(s) == s by {
      assert IsDigit(s[0]) && IsDigit(s[|s| - 1]);
      StripTrim(s);
    }
    hide Strip, UnsignedVal, NatStr;
  }

  lemma ParseSigned(s: string)
    requires s != "" && All(s, IsDigit)
    ensures ParseInt("-" + s).Some? && ParseInt("-" + s).value == 0 - NatVal(s)
  {
    var t := "-" + s;
    assert UnsignedVal(s) == Some(NatVal(s)) by { UnsignedDigits(s); }
    assert Strip(t) == t by {
      assert t[|t| - 1] == s[|s| - 1] && IsDigit(s[|s| - 1]);
      assert Trim(t);
      StripTrim(t);
    }
    hide Strip, UnsignedVal, NatVal, IsDigit, All;
    assert t[1..] == s;
  }

  lemma ParseIntStr(i: int)
    ensures ParseInt(IntStr(i)) == Some(i)
  {
    hide ParseInt, NatStr, NatVal;
    if i >= 0 {
      ParseNatStr(i);
    } else {
      ParseSigned(NatStr(-i));
      NatValStr(-i);
    }
  }

  lemma IntStrIsWord(i: int)
    ensures IsWord(IntStr(i))
  {
  }
}
