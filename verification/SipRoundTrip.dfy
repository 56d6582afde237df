/** Parsing the text a message encodes to gives the message back. */
module SipRoundTrip {
  import opened Text
  import opened Utf8
  import opened SipMessages

  // ---------- Messages the format can carry ----------

  /** Header names must be tokens (message.py, SIPHeader.validate). */
  predicate IsTokenChar(c: char) {
    || 'A' <= c <= 'Z' || 'a' <= c <= 'z' || '0' <= c <= '9'
    || c in "!#$%&'*+-.^_`|~"
  }

  predicate IsToken(s: string) { s != "" && forall i | 0 <= i < |s| :: IsTokenChar(s[i]) }

  /** Header values must not hold control characters other than a tab. */
  predicate IsControl(c: char) { c as int < 9 || 10 <= c as int < 32 || c as int == 127 }

  predicate CleanHeader(h: Header) { IsToken(h.name) && forall i | 0 <= i < |h.value| :: !IsControl(h.value[i]) }

  /** The URI object strips its text, so a URI carries no outer white space. */
  predicate CleanStart(s: Start) {
    match s
    case Request(_, uri) => Trim(uri) && ' ' !in uri && '\r' !in uri
    case Response(_, reason) => '\r' !in reason
    case Unset => false
  }

  predicate Clean(m: Message) {
    CleanStart(m.start) && forall i | 0 <= i < |m.headers| :: CleanHeader(m.headers[i])
  }

  // ---------- What arrives ----------

  function ReceivedStart(s: Start): Start {
    match s
    case Response(status, reason) => Response(status, RStrip(reason))
    case _ => s
  }

  function StripValues(headers: seq<Header>): (r: seq<Header>)
    ensures |r| == |headers|
    ensures forall i | 0 <= i < |r| :: r[i] == Header(headers[i].name, Strip(headers[i].value))
  {
    if headers == [] then []
    else [Header(headers[0].name, Strip(headers[0].value))] + StripValues(headers[1..])
  }

  function ReceivedBody(body: Option<Body>, headers: seq<Header>): Option<Body> {
    if body.None? || RStrip(body.value.content) == "" then None
    else Some(Body(RStrip(body.value.content), ContentTypeOf(headers)))
  }

  function Received(m: Message): Message {
    var headers := StripValues(WrittenHeaders(m));
    Message(ReceivedStart(m.start), headers, ReceivedBody(m.body, headers))
  }

  // ---------- Lines ----------

  /** A line that survives splitting and is not blank. */
  predicate Solid(l: string) { l != "" && NotSpace(l[0]) && '\r' !in l }

  /** Whatever is not white space stays, and everything before it. */
  lemma {:induction false} RStripKeeps(s: string, i: nat)
    requires i < |s| && NotSpace(s[i])
    ensures i < |RStrip(s)|
    decreases |s|
  {
    hide IsSpace;
    if IsSpace(s[|s| - 1]) { RStripKeeps(s[..|s| - 1], i); }
  }

  lemma {:induction false} SpanStops(s: string, p: char -> bool, i: nat)
    requires i < |s| && !p(s[i])
    ensures Span(s, p) <= i
    decreases |s|
  {
    if i > 0 { SpanStops(s[1..], p, i - 1); }
  }

  lemma SolidNotBlank(l: string)
    requires l != "" && NotSpace(l[0])
    ensures LStrip(l) == l && RStrip(l) != "" && !IsBlank(l)
  {
    assert Span(l, IsSpace) == 0;
    RStripKeeps(l, 0);
  }

  lemma {:induction false} StripTail(x: string, pad: string)
    requires All(pad, IsSpace)
    ensures Strip(x + pad) == Strip(x)
    decreases |x|
  {
    if x == "" {
      assert x + pad == pad;
      SpanIs(pad, IsSpace, |pad|);
      assert LStrip(pad) == "";
    } else if IsSpace(x[0]) {
      assert (x + pad)[0] == x[0] && (x + pad)[1..] == x[1..] + pad;
      StripTail(x[1..], pad);
      LStripSpace(x);
      LStripSpace(x + pad);
    } else {
      assert (x + pad)[0] == x[0];
      assert LStrip(x) == x && LStrip(x + pad) == x + pad;
      hide IsSpace, RStrip;
      RStripPad(x, pad);
    }
  }

  lemma LStripSpace(x: string)
    requires x != "" && IsSpace(x[0])
    ensures LStrip(x) == LStrip(x[1..])
  {
    assert Span(x, IsSpace) == 1 + Span(x[1..], IsSpace);
    assert x[1 + Span(x[1..], IsSpace)..] == x[1..][Span(x[1..], IsSpace)..];
  }

  /** Stripping ignores trailing white space that was already dropped. */
  lemma StripRStrip(x: string)
    ensures Strip(RStrip(x)) == Strip(x)
  {
    var r := RStrip(x);
    hide IsSpace, RStrip, Strip;
    assert x == r + x[|r|..];
    StripTail(r, x[|r|..]);
  }

  lemma StripTwice(x: string)
    ensures Strip(Strip(x)) == Strip(x)
  {
    StripIsTrim(x);
    StripTrim(Strip(x));
  }

  // ---------- Header lines ----------

  lemma TokenChar(c: char)
    requires IsTokenChar(c)
    ensures NotSpace(c) && c != ':' && c != '\r' && c != '\n' && c as int < 128
  {
  }

  lemma TokenName(s: string)
    requires IsToken(s)
    ensures Trim(s) && ':' !in s && '\r' !in s && NotSpace(s[0])
  {
    hide IsTokenChar, IsSpace;
    forall i | 0 <= i < |s| ensures NotSpace(s[i]) && s[i] != ':' && s[i] != '\r' { TokenChar(s[i]); }
  }

  lemma HeaderLineSolid(h: Header)
    requires CleanHeader(h)
    ensures Solid(HeaderLine(h))
  {
    var l := HeaderLine(h);
    TokenName(h.name);
    assert '\r' !in h.value;
    hide IsSpace, CleanHeader, IsToken;
    assert l[0] == h.name[0];
    AbsentConcat('\r', " ", h.value);
    AbsentConcat('\r', ":", " " + h.value);
    AbsentConcat('\r', h.name, ":" + (" " + h.value));
  }

  lemma HeaderLineColon(h: Header)
    requires IsToken(h.name)
    ensures Find(HeaderLine(h), ":") == |h.name|
    ensures HeaderLine(h)[..|h.name|] == h.name && HeaderLine(h)[|h.name| + 1..] == " " + h.value
  {
    TokenName(h.name);
    hide Find, IsToken, IsSpace;
    FindAfter(h.name, " " + h.value, ":");
    MiddleParts(h.name, ':', " " + h.value);
  }

  lemma MiddleParts<T>(a: seq<T>, c: T, b: seq<T>)
    ensures (a + ([c] + b))[..|a|] == a && (a + ([c] + b))[|a| + 1..] == b
  {
  }

  lemma HeaderLineReads(h: Header)
    requires CleanHeader(h)
    ensures ReadHeader(HeaderLine(h)) == [Header(h.name, Strip(h.value))]
  {
    TokenName(h.name);
    HeaderLineColon(h);
    hide Find, CleanHeader, Strip, IsSpace, HeaderLine;
    StripTrim(h.name);
    StripBlankHead(h.value);
    StripTwice(h.value);
  }

  lemma StripBlankHead(x: string)
    ensures Strip(" " + x) == Strip(x)
  {
    assert (" " + x)[1..] == x;
    LStripSpace(" " + x);
  }

  lemma ColonKept(l: string)
    requires Find(l, ":") >= 0
    ensures Find(l, ":") < |RStrip(l)|
  {
    var i := Find(l, ":");
    assert l[i] == ':' by { assert l[i..i + 1][0] == ':'; }
    hide Find, RStrip;
    RStripKeeps(l, i);
  }

  lemma PrefixParts<T>(s: seq<T>, r: seq<T>, i: nat)
    requires r <= s && i < |r|
    ensures r == s[..|r|] && r[..i] == s[..i] && s[i + 1..] == r[i + 1..] + s[|r|..]
  {
  }

  /** Trailing white space of a header line belongs to its value. */
  lemma ReadHeaderRStrip(l: string)
    requires Find(l, ":") >= 0
    ensures ReadHeader(RStrip(l)) == ReadHeader(l)
  {
    hide RStrip, Strip, IsSpace, Find;
    var i, r := Find(l, ":"), RStrip(l);
    ColonKept(l);
    PrefixParts(l, r, i);
    FindCut(l, |r|, ":");
    StripTail(r[i + 1..], l[|r|..]);
  }

  /** Cutting the text after the first match does not move it. */
  lemma {:induction false} FindCut<T>(s: seq<T>, n: nat, p: seq<T>)
    requires p != [] && 0 <= Find(s, p) && Find(s, p) + |p| <= n <= |s|
    ensures Find(s[..n], p) == Find(s, p)
    decreases |s|
  {
    var cut := s[..n];
    if p <= s {
      assert p <= cut;
    } else {
      assert !(p <= cut);
      assert cut[1..] == s[1..][..n - 1];
      FindCut(s[1..], n - 1, p);
    }
  }

  // ---------- The start line ----------

  lemma MethodNameClean(m: Method)
    ensures var n := MethodName(m);
      n != "" && ' ' !in n && '\r' !in n && NotSpace(n[0])
    ensures !IsStatusLine(MethodName(m)) && MethodOf(MethodName(m)) == Some(m)
    ensures |MethodName(m)| >= 4 || m == ACK || m == BYE
  {
  }

  lemma SplitThree(a: string, b: string, c: string)
    requires ' ' !in a && ' ' !in b
    ensures SplitTwice(a + (" " + (b + (" " + c)))) == [a, b, c]
  {
    var rest := b + (" " + c);
    var s := a + (" " + rest);
    FindAfter(a, rest, " ");
    FindAfter(b, c, " ");
    assert s[..|a|] == a && s[|a| + 1..] == rest;
    assert rest[..|b|] == b && rest[|b| + 1..] == c;
  }

  lemma SplitPair(a: string, b: string)
    requires ' ' !in a && ' ' !in b
    ensures SplitTwice(a + (" " + b)) == [a, b]
  {
    var s := a + (" " + b);
    FindAfter(a, b, " ");
    FindSkip(b, "", " ");
    assert b + "" == b;
    FindShort("", " ");
    assert s[..|a|] == a && s[|a| + 1..] == b;
  }

  lemma RequestLineSolid(verb: Method, uri: string)
    requires CleanStart(Request(verb, uri))
    ensures var l := StartLine(Request(verb, uri)); Solid(l) && Strip(l) == l
  {
    var n, tail := MethodName(verb), " " + VERSION;
    var l := StartLine(Request(verb, uri));
    MethodNameClean(verb);
    hide MethodName;
    assert l[0] == n[0] && l[|l| - 1] == '0';
    StripTrim(l);
    hide Strip, IsSpace;
    AbsentConcat('\r', uri, tail);
    AbsentConcat('\r', " ", uri + tail);
    AbsentConcat('\r', n, " " + (uri + tail));
  }

  lemma ParseRequest(l: string, verb: Method, uri: string)
    requires SplitTwice(l) == [MethodName(verb), uri, VERSION]
    requires !IsStatusLine(l) && MethodOf(MethodName(verb)) == Some(verb) && Strip(uri) == uri
    ensures ParseStart(l) == Some(Request(verb, uri))
  {
    hide MethodName, MethodOf, Strip, IsStatusLine, SplitTwice;
  }

  lemma RequestLineParses(verb: Method, uri: string)
    requires CleanStart(Request(verb, uri))
    ensures ParseStart(StartLine(Request(verb, uri))) == Some(Request(verb, uri))
  {
    hide MethodName, MethodOf, Strip, IsStatusLine, SplitTwice, ParseStart;
    MethodNameClean(verb);
    StripTrim(uri);
    SplitThree(MethodName(verb), uri, VERSION);
    NotStatusLine(verb, " " + (uri + (" " + VERSION)));
    ParseRequest(StartLine(Request(verb, uri)), verb, uri);
  }

  lemma AbsentConcat(c: char, a: string, b: string)
    requires c !in a && c !in b
    ensures c !in a + b
  {
  }

  lemma NotStatusLine(verb: Method, rest: string)
    ensures !IsStatusLine(MethodName(verb) + rest)
  {
    var l := MethodName(verb) + rest;
    MethodNameClean(verb);
    if verb == ACK || verb == BYE { assert l[0] == MethodName(verb)[0]; }
    else { assert l[..4] == MethodName(verb)[..4]; }
  }

  lemma StatusWord(status: int)
    ensures var n := IntStr(status);
      n != "" && Trim(n) && ' ' !in n && '\r' !in n && ParseInt(n) == Some(status)
  {
    var n := IntStr(status);
    IntStrIsWord(status);
    ParseIntStr(status);
    hide IntStr, ParseInt;
    assert IsSpace(' ') && IsSpace('\r');
    forall i | 0 <= i < |n| ensures n[i] != ' ' && n[i] != '\r' { assert NotSpace(n[i]); }
  }

  lemma StatusLineSolid(status: int, reason: string)
    requires '\r' !in reason
    ensures Solid(StartLine(Response(status, reason)))
  {
    var n := IntStr(status);
    StatusWord(status);
    hide IntStr, ParseInt;
    assert StartLine(Response(status, reason))[0] == 'S';
    AbsentConcat('\r', " ", reason);
    AbsentConcat('\r', n, " " + reason);
    AbsentConcat('\r', " ", n + (" " + reason));
    AbsentConcat('\r', VERSION, " " + (n + (" " + reason)));
  }

  /** A blank reason phrase is stripped off with the blank before it. */
  lemma StatusLineStripped(status: int, reason: string)
    ensures var l := Strip(StartLine(Response(status, reason)));
      l == if RStrip(reason) == "" then VERSION + (" " + IntStr(status))
           else VERSION + (" " + (IntStr(status) + (" " + RStrip(reason))))
  {
    var n, r := IntStr(status), RStrip(reason);
    StatusWord(status);
    hide IntStr, ParseInt, RStrip, Strip;
    if r == "" {
      StatusLineBlank(n, reason);
    } else {
      var front := VERSION + (" " + (n + " "));
      StatusLineFull(front, reason);
      assert front + reason == VERSION + (" " + (n + (" " + reason)));
      assert front + r == VERSION + (" " + (n + (" " + r)));
    }
  }

  lemma StatusLineBlank(n: string, reason: string)
    requires n != "" && Trim(n) && RStrip(reason) == ""
    ensures Strip(VERSION + (" " + (n + (" " + reason)))) == VERSION + (" " + n)
  {
    var pad, core := " " + reason, VERSION + (" " + n);
    assert All(pad, IsSpace) by { assert reason[0..] == reason; }
    hide RStrip, Strip;
    assert VERSION + (" " + (n + pad)) == core + pad;
    assert core[0] == 'S' && core[|core| - 1] == n[|n| - 1];
    StripPad(core, pad);
  }

  lemma StatusLineFull(front: string, reason: string)
    requires front != "" && NotSpace(front[0]) && RStrip(reason) != ""
    ensures Strip(front + reason) == front + RStrip(reason)
  {
    hide RStrip;
    assert (front + reason)[0] == front[0];
    assert Span(front + reason, IsSpace) == 0;
    RStripConcat(front, reason);
  }

  lemma StatusLine(status: int, reason: string)
    ensures ParseStart(Strip(StartLine(Response(status, reason)))) == Some(Response(status, RStrip(reason)))
  {
    hide IntStr, ParseInt, RStrip, Strip, StartLine, Find;
    var n, r := IntStr(status), RStrip(reason);
    StatusWord(status);
    StatusLineStripped(status, reason);
    assert ' ' !in VERSION;
    var l := Strip(StartLine(Response(status, reason)));
    assert l[..4] == "SIP/" by { assert l[..|VERSION|] == VERSION; }
    if r == "" { SplitPair(VERSION, n); } else { SplitThree(VERSION, n, r); }
  }

  lemma StartLineParses(s: Start)
    requires CleanStart(s)
    ensures Solid(StartLine(s)) && ParseStart(Strip(StartLine(s))) == Some(ReceivedStart(s))
  {
    match s
    case Request(verb, uri) =>
      RequestLineSolid(verb, uri);
      RequestLineParses(verb, uri);
    case Response(status, reason) =>
      StatusLineSolid(status, reason);
      StatusLine(status, reason);
  }

  // ---------- The header block ----------

  lemma NatStrPrintable(n: nat)
    ensures var s := NatStr(n); Trim(s) && forall i | 0 <= i < |s| :: !IsControl(s[i]) && s[i] as int < 128
  {
    var s := NatStr(n);
    hide NatStr;
    forall i | 0 <= i < |s| ensures !IsControl(s[i]) && s[i] as int < 128 { assert IsDigit(s[i]); }
  }

  lemma WrittenClean(m: Message)
    requires Clean(m)
    ensures forall i | 0 <= i < |WrittenHeaders(m)| :: CleanHeader(WrittenHeaders(m)[i])
  {
    if m.body.Some? {
      var n := |Utf8.Encode(m.body.value.content)|;
      NatStrPrintable(n);
      hide NatStr;
      assert CleanHeader(Header(CONTENT_LENGTH, NatStr(n)));
    }
  }

  lemma HeadLinesSolid(m: Message)
    requires Clean(m)
    ensures forall i | 0 <= i < |HeadLines(m)| :: Solid(HeadLines(m)[i])
  {
    WrittenClean(m);
    StartLineParses(m.start);
    var hs := WrittenHeaders(m);
    hide Clean, CleanHeader, WrittenHeaders, StartLine, Solid, HeaderLine;
    ConsParts(StartLine(m.start), HeaderLines(hs));
    var hl := HeadLines(m);
    forall i | 0 <= i < |hl| ensures Solid(hl[i]) {
      if i > 0 { HeaderLineSolid(hs[i - 1]); }
    }
  }

  lemma {:induction false} HeaderLinesRead(hs: seq<Header>)
    requires forall i | 0 <= i < |hs| :: CleanHeader(hs[i])
    ensures ReadHeaders(HeaderLines(hs)) == StripValues(hs)
    decreases |hs|
  {
    hide ReadHeader, CleanHeader, HeaderLine;
    if hs != [] {
      HeaderLineReads(hs[0]);
      var t := hs[1..];
      forall i | 0 <= i < |t| ensures CleanHeader(t[i]) { assert t[i] == hs[i + 1]; }
      HeaderLinesRead(t);
      assert HeaderLines(hs)[1..] == HeaderLines(t);
    }
  }

  // ---------- The text, stripped and split ----------

  function BodyText(m: Message): string {
    if m.body.Some? then CRLF + m.body.value.content else ""
  }

  lemma TextShape(m: Message)
    ensures MessageText(m) == Join(CRLF, HeadLines(m)) + (CRLF + BodyText(m))
  {
    hide HeadLines;
    if m.body.Some? {
      var c := m.body.value.content;
      JoinConcat(CRLF, HeadLines(m), ["", c]);
      assert ["", c][1..] == [c];
      assert Join(CRLF, ["", c]) == "" + (CRLF + c);
      assert [""] + [c] == ["", c];
    } else {
      JoinConcat(CRLF, HeadLines(m), [""]);
      assert [""] + [] == [""];
    }
  }

  lemma {:induction false} SplitHead(lines: seq<string>, x: string)
    requires lines != [] && forall i | 0 <= i < |lines| :: '\r' !in lines[i]
    ensures SplitOn(Join(CRLF, lines) + (CRLF + x), CRLF) == lines + SplitOn(x, CRLF)
    decreases |lines|
  {
    hide SplitOn;
    var tail := CRLF + x;
    if |lines| == 1 {
      SplitOnCons(lines[0], x, CRLF);
      assert lines == [lines[0]];
    } else {
      var rest := Join(CRLF, lines[1..]);
      assert (lines[0] + (CRLF + rest)) + tail == lines[0] + (CRLF + (rest + tail));
      SplitOnCons(lines[0], rest + tail, CRLF);
      SplitHead(lines[1..], x);
      assert [lines[0]] + (lines[1..] + SplitOn(x, CRLF)) == lines + SplitOn(x, CRLF);
    }
  }

  /** All lines but the last, and the last without trailing white space. */
  function TrimLast(lines: seq<string>): seq<string>
    requires lines != []
  {
    lines[..|lines| - 1] + [RStrip(lines[|lines| - 1])]
  }

  lemma InitLast<T>(s: seq<T>)
    requires s != []
    ensures s == s[..|s| - 1] + [s[|s| - 1]]
  {
  }

  lemma JoinSnoc(init: seq<string>, last: string)
    requires init != []
    ensures Join(CRLF, init + [last]) == (Join(CRLF, init) + CRLF) + last
  {
    JoinConcat(CRLF, init, [last]);
    assert Join(CRLF, [last]) == last;
    hide Join;
    assert Join(CRLF, init) + (CRLF + last) == (Join(CRLF, init) + CRLF) + last;
  }

  lemma RStripJoin(lines: seq<string>)
    requires lines != [] && RStrip(lines[|lines| - 1]) != ""
    ensures RStrip(Join(CRLF, lines)) == Join(CRLF, TrimLast(lines))
  {
    hide RStrip;
    var n := |lines| - 1;
    if n == 0 {
      assert TrimLast(lines) == [RStrip(lines[0])];
    } else {
      hide Join;
      var init, last := lines[..n], lines[n];
      InitLast(lines);
      JoinSnoc(init, last);
      JoinSnoc(init, RStrip(last));
      RStripConcat(Join(CRLF, init) + CRLF, last);
    }
  }

  lemma {:induction false} JoinFirst(lines: seq<string>)
    requires lines != [] && lines[0] != ""
    ensures Join(CRLF, lines) != "" && Join(CRLF, lines)[0] == lines[0][0]
  {
  }

  /** The whole text has no white space in front, so stripping works on its end only. */
  lemma StripFront(m: Message)
    requires Clean(m)
    ensures Strip(MessageText(m)) == RStrip(MessageText(m))
  {
    var hl := HeadLines(m);
    HeadLinesSolid(m);
    assert Solid(hl[0]);
    TextShape(m);
    JoinFirst(hl);
    var t := MessageText(m);
    hide MessageText, HeadLines, Clean, IsSpace, RStrip;
    assert t[0] == hl[0][0];
    assert NotSpace(t[0]);
    assert Span(t, IsSpace) == 0;
  }

  lemma BlankTail(content: string)
    requires RStrip(content) == ""
    ensures All(CRLF + (CRLF + content), IsSpace) && All(CRLF, IsSpace)
  {
    assert content[0..] == content;
    hide RStrip;
  }

  lemma BlankBody(m: Message)
    requires m.body.None? || RStrip(m.body.value.content) == ""
    ensures All(CRLF + BodyText(m), IsSpace)
  {
    hide RStrip;
    if m.body.Some? {
      BlankTail(m.body.value.content);
    } else {
      assert CRLF + BodyText(m) == CRLF;
    }
  }

  lemma TrimLastWhole(lines: seq<string>, i: nat)
    requires i < |lines| && '\r' !in lines[i]
    ensures '\r' !in TrimLast(lines)[i]
  {
    var last := lines[|lines| - 1];
    hide RStrip;
    assert RStrip(last) <= last;
  }

  /** A message whose body is absent or blank loses it, and its last line loses trailing blanks. */
  lemma LinesWithoutBody(m: Message)
    requires Clean(m) && (m.body.None? || RStrip(m.body.value.content) == "")
    ensures SplitOn(Strip(MessageText(m)), CRLF) == TrimLast(HeadLines(m))
  {
    hide RStrip, HeadLines, MessageText, Clean, SplitOn, Join, Strip, IsSpace, BodyText, TrimLast;
    var hl := HeadLines(m);
    HeadLinesSolid(m);
    StripFront(m);
    TextShape(m);
    BlankBody(m);
    RStripPad(Join(CRLF, hl), CRLF + BodyText(m));
    assert Solid(hl[|hl| - 1]);
    SolidNotBlank(hl[|hl| - 1]);
    RStripJoin(hl);
    var cut := TrimLast(hl);
    assert |cut| == |hl| by { TrimLastCount(hl); }
    forall i | 0 <= i < |cut| ensures '\r' !in cut[i] {
      assert Solid(hl[i]);
      TrimLastWhole(hl, i);
    }
    SplitOnJoin(cut, CRLF);
  }

  lemma TrimLastCount(lines: seq<string>)
    requires lines != []
    ensures |TrimLast(lines)| == |lines|
  {
    hide RStrip;
  }

  lemma SplitWithBody(hl: seq<string>, r: string)
    requires hl != [] && forall i | 0 <= i < |hl| :: '\r' !in hl[i]
    ensures SplitOn((Join(CRLF, hl) + (CRLF + CRLF)) + r, CRLF) == hl + ([""] + SplitOn(r, CRLF))
  {
    hide SplitOn, Join;
    var j := Join(CRLF, hl);
    assert (j + (CRLF + CRLF)) + r == j + (CRLF + (CRLF + r));
    SplitHead(hl, CRLF + r);
    assert "" + (CRLF + r) == CRLF + r;
    SplitOnCons("", r, CRLF);
  }

  lemma LinesWithBody(m: Message)
    requires Clean(m) && m.body.Some? && RStrip(m.body.value.content) != ""
    ensures SplitOn(Strip(MessageText(m)), CRLF)
         == HeadLines(m) + ([""] + SplitOn(RStrip(m.body.value.content), CRLF))
  {
    hide RStrip, HeadLines, MessageText, Clean, SplitOn, Join, Strip, IsSpace;
    var hl, c := HeadLines(m), m.body.value.content;
    HeadLinesSolid(m);
    StripFront(m);
    TextShape(m);
    var front := Join(CRLF, hl) + (CRLF + CRLF);
    assert Join(CRLF, hl) + (CRLF + (CRLF + c)) == front + c;
    RStripConcat(front, c);
    forall i | 0 <= i < |hl| ensures '\r' !in hl[i] { assert Solid(hl[i]); }
    SplitWithBody(hl, RStrip(c));
  }

  // ---------- Parsing those lines ----------

  lemma {:induction false} UptoSolid(lines: seq<string>, rest: seq<string>)
    requires forall i | 0 <= i < |lines| :: Solid(lines[i])
    ensures Upto(lines + rest) == |lines| + Upto(rest)
    decreases |lines|
  {
    if lines == [] {
      assert lines + rest == rest;
    } else {
      assert Solid(lines[0]);
      SolidNotBlank(lines[0]);
      hide IsBlank, Solid;
      assert (lines + rest)[0] == lines[0] && (lines + rest)[1..] == lines[1..] + rest;
      UptoSolid(lines[1..], rest);
    }
  }

  lemma NotBlankTrimmed(s: string)
    requires RStrip(s) != ""
    ensures !IsBlank(RStrip(s))
  {
    hide RStrip, IsSpace;
    var r := RStrip(s);
    var n := |r| - 1;
    SpanStops(r, IsSpace, n);
    var k := Span(r, IsSpace);
    assert r[k..][n - k] == r[n];
    RStripKeeps(r[k..], n - k);
  }

  lemma ParseLinesBody(hl: seq<string>, body: seq<string>, start: Start)
    requires hl != [] && body != [] && forall i | 0 <= i < |hl| :: Solid(hl[i])
    requires ParseStart(Strip(hl[0])) == Some(start) && !IsBlank(Join(CRLF, body))
    ensures ParseLines(hl + ([""] + body))
         == Some(Message(start, ReadHeaders(hl[1..]),
                         Some(Body(Join(CRLF, body), ContentTypeOf(ReadHeaders(hl[1..]))))))
  {
    hide ReadHeaders, Join, Strip, ParseStart, Solid, IsBlank, ContentTypeOf;
    var lines, after := hl + ([""] + body), [""] + body;
    var rest := hl[1..] + after;
    assert lines[0] == hl[0] && lines[1..] == rest;
    UptoSolid(hl[1..], after);
    BlankEmpty();
    assert Upto(after) == 0;
    hide Upto;
    assert rest[..|hl| - 1] == hl[1..];
    assert rest[|hl|..] == body;
  }

  lemma ParseLinesBare(lines: seq<string>, start: Start)
    requires lines != [] && forall i | 1 <= i < |lines| :: Solid(lines[i])
    requires ParseStart(Strip(lines[0])) == Some(start)
    ensures ParseLines(lines) == Some(Message(start, ReadHeaders(lines[1..]), None))
  {
    hide ReadHeaders, Join, Strip, ParseStart, Solid, IsBlank, ContentTypeOf;
    var rest := lines[1..];
    forall i | 0 <= i < |rest| ensures Solid(rest[i]) { assert rest[i] == lines[i + 1]; }
    UptoSolid(rest, []);
    assert rest + [] == rest;
    assert Upto(rest) == |rest|;
    hide Upto;
    assert rest[..|rest|] == rest;
  }

  lemma ParseWithBody(m: Message)
    requires Clean(m) && m.body.Some? && RStrip(m.body.value.content) != ""
    ensures ParseMessage(MessageText(m)) == Some(Received(m))
  {
    var hl, hs := HeadLines(m), WrittenHeaders(m);
    assert hl[0] == StartLine(m.start) && hl[1..] == HeaderLines(hs);
    assert Clean(m) ==> CleanStart(m.start);
    hide RStrip, WrittenHeaders, MessageText, Clean, SplitOn, Join, Strip, ParseStart, StartLine, Solid, IsBlank,
         ParseLines, HeadLines, ReadHeaders, CleanHeader, CleanStart, ReceivedStart, StripValues, HeaderLines,
         ContentTypeOf;
    var r := RStrip(m.body.value.content);
    HeadLinesSolid(m);
    WrittenClean(m);
    StartLineParses(m.start);
    HeaderLinesRead(hs);
    LinesWithBody(m);
    JoinSplitOn(r, CRLF);
    NotBlankTrimmed(m.body.value.content);
    ParseLinesBody(hl, SplitOn(r, CRLF), ReceivedStart(m.start));
  }

  lemma BlankEmpty()
    ensures IsBlank("")
  {
  }

  lemma {:induction false} HeaderColons(hs: seq<Header>, i: nat)
    requires i < |hs| && CleanHeader(hs[i])
    ensures Find(HeaderLines(hs)[i], ":") >= 0
  {
    HeaderLineColon(hs[i]);
  }

  lemma SolidTrimmed(l: string)
    requires Solid(l)
    ensures Solid(RStrip(l))
  {
    SolidNotBlank(l);
    hide RStrip;
    assert RStrip(l)[0] == l[0];
  }

  lemma TrimLastAfter(start: string, ls: seq<string>)
    requires ls != []
    ensures TrimLast([start] + ls) == [start] + TrimLast(ls)
  {
    hide RStrip;
    assert ([start] + ls)[..|ls|] == [start] + ls[..|ls| - 1];
    assert ([start] + ls)[|ls|] == ls[|ls| - 1];
  }

  /** Dropping blanks at the end of the last header line leaves all headers as they were. */
  lemma TrimLastReads(hs: seq<Header>)
    requires hs != [] && forall i | 0 <= i < |hs| :: CleanHeader(hs[i])
    ensures ReadHeaders(TrimLast(HeaderLines(hs))) == StripValues(hs)
  {
    var ls, n := HeaderLines(hs), |hs|;
    HeaderLinesRead(hs);
    HeaderColons(hs, n - 1);
    hide RStrip, ReadHeader, ReadHeaders, Find, CleanHeader, HeaderLine, HeaderLines, StripValues;
    var init, last := ls[..n - 1], ls[n - 1];
    ReadHeaderRStrip(last);
    InitLast(ls);
    ReadHeadersSnoc(init, last);
    ReadHeadersSnoc(init, RStrip(last));
  }

  lemma TrimLastSolid(hs: seq<Header>)
    requires hs != [] && forall i | 0 <= i < |hs| :: CleanHeader(hs[i])
    ensures forall i | 0 <= i < |hs| :: Solid(TrimLast(HeaderLines(hs))[i])
  {
    hide RStrip, Solid, CleanHeader, HeaderLine;
    var ls := HeaderLines(hs);
    forall i | 0 <= i < |hs| ensures Solid(TrimLast(ls)[i]) {
      HeaderLineSolid(hs[i]);
      if i == |hs| - 1 { SolidTrimmed(ls[i]); }
    }
  }

  lemma TrimLastHeaders(hs: seq<Header>, start: string)
    requires hs != [] && forall i | 0 <= i < |hs| :: CleanHeader(hs[i])
    ensures var cut := TrimLast([start] + HeaderLines(hs));
      && (forall i | 1 <= i < |cut| :: Solid(cut[i]))
      && cut[0] == start
      && ReadHeaders(cut[1..]) == StripValues(hs)
  {
    hide TrimLast, RStrip, Solid, ReadHeaders, CleanHeader, HeaderLine, StripValues;
    var ls := HeaderLines(hs);
    TrimLastAfter(start, ls);
    TrimLastCount(ls);
    TrimLastReads(hs);
    TrimLastSolid(hs);
    ConsParts(start, TrimLast(ls));
    var cut := TrimLast([start] + ls);
    forall i | 1 <= i < |cut| ensures Solid(cut[i]) { assert cut[i] == TrimLast(ls)[i - 1]; }
  }

  lemma ConsParts<T>(x: T, xs: seq<T>)
    ensures ([x] + xs)[0] == x && ([x] + xs)[1..] == xs
    ensures forall i | 1 <= i <= |xs| :: ([x] + xs)[i] == xs[i - 1]
  {
  }

  lemma TrimLastAlone(start: string)
    ensures TrimLast([start] + HeaderLines([])) == [RStrip(start)]
        && ReadHeaders([RStrip(start)][1..]) == StripValues([])
  {
    hide RStrip;
    assert [start] + HeaderLines([]) == [start];
  }

  lemma ParseWithoutBody(m: Message)
    requires Clean(m) && (m.body.None? || RStrip(m.body.value.content) == "")
    ensures ParseMessage(MessageText(m)) == Some(Received(m))
  {
    assert Clean(m) ==> CleanStart(m.start);
    hide RStrip, WrittenHeaders, MessageText, Clean, SplitOn, Join, Strip, ParseStart, StartLine, Solid, IsBlank,
         ParseLines, ReadHeaders, CleanHeader, CleanStart, ReceivedStart, StripValues, HeaderLines, ContentTypeOf,
         TrimLast;
    WrittenClean(m);
    StartLineParses(m.start);
    StripRStrip(StartLine(m.start));
    LinesWithoutBody(m);
    if WrittenHeaders(m) == [] { TrimLastAlone(StartLine(m.start)); }
    else { TrimLastHeaders(WrittenHeaders(m), StartLine(m.start)); }
    ParseLinesBare(TrimLast(HeadLines(m)), ReceivedStart(m.start));
  }

  /** Parsing the text of a clean message gives its start line, headers and body back. */
  lemma ParseEncoded(m: Message)
    requires Clean(m)
    ensures ParseMessage(Decode(MessageBytes(m))) == Some(Received(m))
  {
    hide Clean, ParseMessage, Received, MessageText, RStrip, Decode, Utf8.Encode;
    RoundTrip(MessageText(m));
    if m.body.None? || RStrip(m.body.value.content) == "" { ParseWithoutBody(m); } else { ParseWithBody(m); }
  }
}
