/**
 * Messages on a TCP connection: encoded one after the other, cut by the framer however the bytes
 * were chunked, decoded and parsed back.
 */
module Wire {
  import opened Text
  import opened Utf8
  import opened SipMessages
  import opened SipRoundTrip
  import opened TcpFraming
  import opened TcpStream

  // ---------- The header block in the byte stream ----------

  lemma EncodeAscii(a: char)
    requires a as int < 128
    ensures Utf8.Encode([a]) == [a as int]
  {
    assert [a][1..] == "";
  }

  lemma EncodeBreaks()
    ensures Utf8.Encode(CRLF) == [13, 10] && Utf8.Encode(CRLF + CRLF) == DELIM
  {
    EncodeAscii('\r');
    EncodeAscii('\n');
    assert CRLF == "\r" + "\n";
    EncodeConcat("\r", "\n");
    EncodeConcat(CRLF, CRLF);
  }

  lemma EncodeFirst(s: string)
    requires s != "" && s[0] != '\r'
    ensures Utf8.Encode(s) != [] && Utf8.Encode(s)[0] != 13
  {
    AsciiAbsent([s[0]], '\r');
    assert EncodeChar(s[0])[0] != 13 by {
      assert [s[0]][1..] == "";
      assert EncodeChar(s[0]) + [] == EncodeChar(s[0]);
    }
    hide EncodeChar;
    assert Utf8.Encode(s)[0] == EncodeChar(s[0])[0];
  }

  /** No delimiter begins at a line break that is followed by another line. */
  lemma FindBreak(c: seq<Byte>)
    requires c != [] && c[0] != 13
    ensures Find([13, 10] + c, DELIM) == if Find(c, DELIM) < 0 then -1 else 2 + Find(c, DELIM)
  {
    var b := [13, 10] + c;
    var b1 := [10] + c;
    assert b[1..] == b1 && b1[1..] == c;
    assert !(DELIM <= b) by { assert b[2] == c[0]; }
    assert !(DELIM <= b1);
    if |b| < 4 { FindShort(c, DELIM); }
    else if |b1| < 4 { FindShort(c, DELIM); }
  }

  lemma FindLine(first: seq<Byte>, r: seq<Byte>, tail: seq<Byte>)
    requires 13 !in first && r != [] && r[0] != 13
    ensures var i := Find(r + tail, DELIM);
      Find((first + ([13, 10] + r)) + tail, DELIM) == if i < 0 then -1 else |first| + 2 + i
  {
    hide Find;
    var c := r + tail;
    assert (first + ([13, 10] + r)) + tail == first + ([13, 10] + c);
    assert c[0] == r[0];
    FindBreak(c);
    FindSkip(first, [13, 10] + c, DELIM);
  }

  lemma EncodeLines(lines: seq<string>)
    requires |lines| > 1 && Solid(lines[1])
    ensures var r := Utf8.Encode(Join(CRLF, lines[1..]));
      r != [] && r[0] != 13 && Utf8.Encode(Join(CRLF, lines)) == Utf8.Encode(lines[0]) + ([13, 10] + r)
  {
    var t := lines[1..];
    var rest := Join(CRLF, t);
    assert t[0] == lines[1];
    JoinFirst(t);
    assert Join(CRLF, lines) == lines[0] + (CRLF + rest);
    hide Join, Utf8.Encode;
    assert rest[0] == lines[1][0] && rest[0] != '\r';
    EncodeFirst(rest);
    EncodeBreaks();
    EncodeConcat(lines[0], CRLF + rest);
    EncodeConcat(CRLF, rest);
  }

  /** The delimiter after a block of lines is the first one, and without it there is none. */
  lemma {:induction false} FindHead(lines: seq<string>, tail: seq<Byte>)
    requires lines != [] && forall i | 0 <= i < |lines| :: Solid(lines[i])
    requires DELIM <= tail || tail == [13, 10]
    ensures var h := Utf8.Encode(Join(CRLF, lines));
      Find(h + tail, DELIM) == if tail == [13, 10] then -1 else |h|
    decreases |lines|
  {
    var first := Utf8.Encode(lines[0]);
    assert Solid(lines[0]);
    AsciiAbsent(lines[0], '\r');
    if |lines| == 1 {
      hide Utf8.Encode;
      FindSkip(first, tail, DELIM);
      FindDelim(tail);
    } else {
      hide Find, Join, Utf8.Encode, Solid;
      var t := lines[1..];
      forall i | 0 <= i < |t| ensures Solid(t[i]) { assert t[i] == lines[i + 1]; }
      assert Solid(lines[1]);
      FindHead(t, tail);
      EncodeLines(lines);
      FindLine(first, Utf8.Encode(Join(CRLF, t)), tail);
    }
  }

  lemma FindDelim(tail: seq<Byte>)
    requires DELIM <= tail || tail == [13, 10]
    ensures Find(tail, DELIM) == if tail == [13, 10] then -1 else 0
  {
  }

  /** The bytes of a message: its header block, the delimiter, its body. */
  lemma BytesShape(m: Message)
    ensures var h := Utf8.Encode(Join(CRLF, HeadLines(m)));
      MessageBytes(m) == if m.body.Some? then h + (DELIM + Utf8.Encode(m.body.value.content)) else h + [13, 10]
  {
    var head := Join(CRLF, HeadLines(m));
    TextShape(m);
    EncodeBreaks();
    hide MessageText, HeadLines, Join, Utf8.Encode;
    EncodeConcat(head, CRLF + BodyText(m));
    if m.body.Some? {
      var c := m.body.value.content;
      assert CRLF + (CRLF + c) == (CRLF + CRLF) + c;
      EncodeConcat(CRLF + CRLF, c);
    } else {
      assert CRLF + "" == CRLF;
    }
  }

  // ---------- The length the header block announces ----------

  /** The first Content-Length header whose value reads as an integer; none means 0. */
  function FirstLength(hs: seq<Header>): int {
    if hs == [] then 0
    else if Named(hs[0], CONTENT_LENGTH) && ParseInt(hs[0].value).Some? then ParseInt(hs[0].value).value
    else FirstLength(hs[1..])
  }

  lemma TagColon(i: nat)
    requires i < |LENGTH_TAG|
    ensures LENGTH_TAG[i] == ':' <==> i == 14
  {
  }

  lemma LengthLineOther(l: string, n: nat)
    requires n < |l| && n != 14 && l[n] == ':' && ':' !in l[..n]
    ensures !IsLengthLine(l)
  {
    if |l| >= 15 {
      var low, k := Lower(l[..15]), if n < 14 then n else 14;
      assert low[k] == LowerChar(l[k]);
      ColonLower(l[k]);
      TagColon(k);
      if n > 14 { assert l[..n][14] == l[14]; }
      assert low[k] != LENGTH_TAG[k];
    }
  }

  lemma LengthLineSame(name: string, rest: string)
    requires |name| == 14
    ensures IsLengthLine(name + (":" + rest)) <==> Lower(name) == "content-length"
  {
    var l := name + (":" + rest);
    assert l[..15] == name + ":";
    LowerSnoc(name, ':');
    assert LENGTH_TAG == "content-length" + ":";
    var low := Lower(name);
    hide Lower;
    if low + ":" == LENGTH_TAG { assert low == (low + ":")[..14] == LENGTH_TAG[..14]; }
  }

  /** A header line is a length line exactly when the header has that name. */
  lemma LengthLine(h: Header)
    requires IsToken(h.name)
    ensures IsLengthLine(HeaderLine(h)) <==> Named(h, CONTENT_LENGTH)
  {
    var l, n := HeaderLine(h), |h.name|;
    LowerTag();
    TokenName(h.name);
    if n == 14 {
      LengthLineSame(h.name, " " + h.value);
    } else {
      HeaderLineColon(h);
      hide IsToken, IsSpace;
      assert l[n] == ':';
      LengthLineOther(l, n);
    }
  }

  lemma LowerTag()
    ensures Lower(CONTENT_LENGTH) == "content-length" && Lower("content-length") == "content-length"
  {
    var a, b := CONTENT_LENGTH, "content-length";
    forall i | 0 <= i < 14 ensures Lower(a)[i] == b[i] && Lower(b)[i] == b[i] { }
  }

  lemma ColonLower(c: char)
    ensures LowerChar(c) == ':' <==> c == ':'
  {
  }

  lemma LowerSnoc(s: string, c: char)
    ensures Lower(s + [c]) == Lower(s) + [LowerChar(c)]
  {
    assert Lower(s + [c]) == Lower(s) + [LowerChar(c)];
  }

  lemma ParseIntBlank(s: string)
    ensures ParseInt(" " + s) == ParseInt(s)
  {
    StripBlankHead(s);
    hide Strip, UnsignedVal;
  }

  /** Reading the length line reads the header's value. */
  lemma LengthLineValue(h: Header)
    requires IsToken(h.name) && Named(h, CONTENT_LENGTH)
    ensures |HeaderLine(h)| >= 15 && ParseInt(HeaderLine(h)[15..]) == ParseInt(h.value)
  {
    assert |h.name| == 14 by { assert |Lower(h.name)| == |Lower(CONTENT_LENGTH)|; }
    HeaderLineColon(h);
    hide HeaderLine, IsToken, ParseInt, Find, Lower;
    ParseIntBlank(h.value);
  }

  lemma {:induction false} LengthOfHeaders(hs: seq<Header>)
    requires forall i | 0 <= i < |hs| :: CleanHeader(hs[i])
    ensures LengthOf(HeaderLines(hs) + ["", ""]) == FirstLength(hs)
    decreases |hs|
  {
    var blank := ["", ""];
    if hs == [] {
      assert HeaderLines(hs) + blank == blank;
      assert blank[1..] == [""] && [""][1..] == [];
      assert !IsLengthLine("");
      assert LengthOf([""]) == 0;
    } else {
      var t := hs[1..];
      var ls := HeaderLines(hs) + blank;
      assert ls[0] == HeaderLine(hs[0]) && ls[1..] == HeaderLines(t) + blank;
      assert CleanHeader(hs[0]);
      LengthLine(hs[0]);
      if Named(hs[0], CONTENT_LENGTH) { LengthLineValue(hs[0]); }
      hide CleanHeader, HeaderLine, IsLengthLine, Named, ParseInt;
      forall i | 0 <= i < |t| ensures CleanHeader(t[i]) { assert t[i] == hs[i + 1]; }
      LengthOfHeaders(t);
    }
  }

  lemma StartLineNoLength(s: Start)
    requires CleanStart(s)
    ensures !IsLengthLine(StartLine(s))
  {
    var l := StartLine(s);
    assert l != "" && l[0] in {'I', 'A', 'O', 'B', 'C', 'R', 'M', 'S'} && (l[0] == 'C' ==> |l| > 1 && l[1] == 'A') by {
      match s
      case Request(verb, uri) =>
        var n := MethodName(verb);
        assert l[0] == n[0] && l[1] == n[1];
      case Response(status, reason) =>
        assert l[0] == 'S';
    }
    hide StartLine;
    if |l| >= 15 {
      var low, k := Lower(l[..15]), if l[0] == 'C' then 1 else 0;
      assert low[k] == LowerChar(l[k]);
      assert low[k] != LENGTH_TAG[k];
    }
  }

  lemma BlockLines(hl: seq<string>)
    requires hl != [] && forall i | 0 <= i < |hl| :: '\r' !in hl[i]
    ensures SplitOn(Join(CRLF, hl) + (CRLF + CRLF), CRLF) == hl + ["", ""]
  {
    hide SplitOn, Join;
    SplitHead(hl, CRLF);
    assert "" + (CRLF + "") == CRLF;
    SplitOnCons("", "", CRLF);
    SplitOnNone("", CRLF);
  }

  /** The framer reads the header block of a clean message as it was written. */
  lemma BlockLength(m: Message)
    requires Clean(m)
    ensures LengthOf(SplitOn(Join(CRLF, HeadLines(m)) + (CRLF + CRLF), CRLF)) == FirstLength(WrittenHeaders(m))
  {
    var hl, hs := HeadLines(m), WrittenHeaders(m);
    HeadLinesSolid(m);
    WrittenClean(m);
    StartLineNoLength(m.start);
    forall i | 0 <= i < |hl| ensures '\r' !in hl[i] { assert Solid(hl[i]); }
    BlockLines(hl);
    LengthOfHeaders(hs);
    var ls := hl + ["", ""];
    hide Clean, WrittenHeaders, StartLine, SplitOn, Join, Solid, CleanHeader, IsLengthLine, FirstLength;
    assert ls[0] == StartLine(m.start) && ls[1..] == HeaderLines(hs) + ["", ""];
  }

  /** The end of a message with a body, as the framer computes it. */
  lemma EncodedExtent(m: Message, rest: seq<Byte>)
    requires Clean(m) && m.body.Some?
    ensures var h := |Utf8.Encode(Join(CRLF, HeadLines(m)))|;
      && Find(MessageBytes(m) + rest, DELIM) == h
      && Extent(MessageBytes(m) + rest) == Some(h + 4 + FirstLength(WrittenHeaders(m)))
      && |MessageBytes(m)| == h + 4 + |Utf8.Encode(m.body.value.content)|
  {
    hide Clean, HeadLines, WrittenHeaders, Join, SplitOn, LengthOf, Decode, Utf8.Encode, Find, FirstLength, Solid,
         MessageBytes;
    var head := Join(CRLF, HeadLines(m));
    var h, b := Utf8.Encode(head), Utf8.Encode(m.body.value.content);
    var buf := MessageBytes(m) + rest;
    HeadLinesSolid(m);
    BytesShape(m);
    assert buf == h + (DELIM + (b + rest));
    FindHead(HeadLines(m), DELIM + (b + rest));
    assert buf[..|h| + 4] == h + DELIM;
    EncodeBreaks();
    EncodeConcat(head, CRLF + CRLF);
    RoundTrip(head + (CRLF + CRLF));
    BlockLength(m);
  }

  // ---------- One message ----------

  /** The announced length is the length of the body in bytes. */
  predicate Announced(m: Message)
    requires m.body.Some?
  {
    FirstLength(WrittenHeaders(m)) == |Utf8.Encode(m.body.value.content)|
  }

  /** A message with a body is cut off whole exactly when its announced length is right. */
  lemma CutEncoded(m: Message, rest: seq<Byte>)
    requires Clean(m) && m.body.Some? && FirstLength(WrittenHeaders(m)) >= 0
    ensures Cut(MessageBytes(m) + rest) == Some((MessageBytes(m), rest)) <==> Announced(m)
  {
    hide Clean, HeadLines, WrittenHeaders, Join, Extent, Find, Utf8.Encode, FirstLength, MessageBytes, Cut;
    EncodedExtent(m, rest);
    var buf, e := MessageBytes(m), Extent(MessageBytes(m) + rest).value;
    CutSome(buf + rest);
    if e <= |buf + rest| {
      CutExact(buf + rest);
      if e == |buf| {
        assert (buf + rest)[..e] == buf && (buf + rest)[e..] == rest;
      } else {
        assert |(buf + rest)[..e]| == e;
      }
    }
  }

  /** A message without a body carries no delimiter: it waits, and is never cut off as itself. */
  lemma BodylessNeverCut(m: Message, rest: seq<Byte>)
    requires Clean(m) && m.body.None?
    ensures Cut(MessageBytes(m)) == None
    ensures var all := MessageBytes(m) + rest;
      Extent(all).Some? && Extent(all).value >= Find(all, DELIM) + 4 ==> Cut(all) != Some((MessageBytes(m), rest))
  {
    var b := MessageBytes(m);
    HeadLinesSolid(m);
    BytesShape(m);
    FindHead(HeadLines(m), [13, 10]);
    assert Find(b, DELIM) == -1;
    assert Extent(b) == None;
    assert Cut(b) == None;
    hide MessageBytes, HeadLines, Clean, Solid, Cut, Extent;
    var all := b + rest;
    var e := Extent(all);
    if e.Some? && Find(all, DELIM) + 4 <= e.value <= |all| {
      CutExact(all);
      ExtentFound(all);
      FoundBeyond(b, rest);
      assert |all[..e.value]| == e.value;
    } else {
      CutSome(all);
    }
  }

  lemma ExtentFound(buf: seq<Byte>)
    ensures Extent(buf).Some? <==> Find(buf, DELIM) >= 0
  {
    hide Decode, SplitOn, LengthOf, Find;
  }

  /** A delimiter that first shows up with later bytes ends among them. */
  lemma {:induction false} FoundBeyond(b: seq<Byte>, rest: seq<Byte>)
    requires Find(b, DELIM) < 0 <= Find(b + rest, DELIM)
    ensures Find(b + rest, DELIM) + 4 > |b|
    decreases |b|
  {
    assert |b| >= 4 ==> (DELIM <= b <==> DELIM <= b + rest);
    if b != [] && !(DELIM <= b + rest) {
      assert (b + rest)[1..] == b[1..] + rest;
      FindTail(b);
      FoundBeyond(b[1..], rest);
    }
  }

  lemma FindTail(b: seq<Byte>)
    requires b != [] && Find(b, DELIM) < 0
    ensures Find(b[1..], DELIM) < 0
  {
    if |b| < 4 { FindShort(b[1..], DELIM); }
  }
}
