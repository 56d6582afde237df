/** Whole connections: any list of messages, any chunking, everything arrives. */
module Delivery {
  import opened Text
  import opened Utf8
  import opened SipMessages
  import opened SipRoundTrip
  import opened TcpFraming
  import opened TcpStream
  import opened Wire

  // ---------- Header operations ----------

  lemma {:induction false} GetSet(hs: seq<Header>, name: string, value: string)
    requires Trim(name)
    ensures Get(Set(hs, name, value), name) == Some(if Get(hs, name).Some? then value else Strip(value))
    decreases |hs|
  {
    hide Lower, Strip;
    if hs == [] {
      StripTrim(name);
    } else if !Named(hs[0], name) {
      GetSet(hs[1..], name, value);
    }
  }

  lemma {:induction false} GetSetOther(hs: seq<Header>, name: string, value: string, other: string)
    requires Trim(name) && Lower(name) != Lower(other)
    ensures Get(Set(hs, name, value), other) == Get(hs, other)
    decreases |hs|
  {
    hide Lower, Strip;
    if hs == [] {
      StripTrim(name);
      var h := NewHeader(name, value);
      assert [h][1..] == [];
      assert Get([h], other) == None;
    } else if !Named(hs[0], name) {
      GetSetOther(hs[1..], name, value, other);
    } else {
      var h := hs[0].(value := value);
      assert ([h] + hs[1..])[1..] == hs[1..];
    }
  }

  lemma {:induction false} GetRemove(hs: seq<Header>, name: string, other: string)
    ensures Get(Remove(hs, name), other) == if Lower(name) == Lower(other) then None else Get(hs, other)
    decreases |hs|
  {
    hide Lower;
    if hs != [] { GetRemove(hs[1..], name, other); }
  }

  lemma LengthValue(n: nat)
    ensures ParseInt(NatStr(n)) == Some(n) && NatStr(n) != ""
    ensures NewHeader(CONTENT_LENGTH, NatStr(n)) == Header(CONTENT_LENGTH, NatStr(n))
  {
    ParseNatStr(n);
    NatStrPrintable(n);
    hide ParseInt, NatStr, Strip;
    StripTrim(NatStr(n));
    StripTrim(CONTENT_LENGTH);
  }

  lemma {:induction false} FirstLengthSet(hs: seq<Header>, n: nat)
    ensures FirstLength(Set(hs, CONTENT_LENGTH, NatStr(n))) == n
    decreases |hs|
  {
    hide ParseInt, NatStr, Lower, NewHeader;
    LengthValue(n);
    if hs != [] && !Named(hs[0], CONTENT_LENGTH) {
      FirstLengthSet(hs[1..], n);
    }
  }

  /** Setting the body announces its length in bytes, whatever the headers held before. */
  lemma WithBodyAnnounced(m: Message, content: string, contentType: string)
    ensures Announced(WithBody(m, content, contentType))
  {
    var n := |Utf8.Encode(content)|;
    hide Get, Set, FirstLength, NatStr, Utf8.Encode;
    var hs := Set(m.headers, CONTENT_TYPE, contentType);
    NatStrPrintable(n);
    StripTrim(NatStr(n));
    hide Strip;
    GetSet(hs, CONTENT_LENGTH, NatStr(n));
    FirstLengthSet(hs, n);
  }

  lemma {:induction false} FirstLengthNone(hs: seq<Header>, h: Header)
    requires Get(hs, CONTENT_LENGTH) == None
    ensures FirstLength(hs + [h]) == FirstLength([h])
    decreases |hs|
  {
    hide ParseInt, Lower;
    if hs == [] {
      assert hs + [h] == [h];
    } else {
      assert (hs + [h])[0] == hs[0] && (hs + [h])[1..] == hs[1..] + [h];
      FirstLengthNone(hs[1..], h);
    }
  }

  /** Without a Content-Length header, encoding writes the right one. */
  lemma AutoAnnounced(m: Message)
    requires m.body.Some? && Get(m.headers, CONTENT_LENGTH) == None
    ensures Announced(m)
  {
    var n := |Utf8.Encode(m.body.value.content)|;
    var h := Header(CONTENT_LENGTH, NatStr(n));
    ParseNatStr(n);
    hide NatStr, ParseInt, Get, Utf8.Encode;
    FirstLengthNone(m.headers, h);
  }

  lemma {:induction false} SetClean(hs: seq<Header>, name: string, value: string)
    requires forall i | 0 <= i < |hs| :: CleanHeader(hs[i])
    requires IsToken(name) && CleanHeader(Header(name, value))
    ensures forall i | 0 <= i < |Set(hs, name, value)| :: CleanHeader(Set(hs, name, value)[i])
    decreases |hs|
  {
    if hs == [] {
      TokenName(name);
      StripTrim(name);
      StripClean(name, value);
    } else if Named(hs[0], name) {
      assert CleanHeader(hs[0]);
      assert CleanHeader(hs[0].(value := value));
    } else {
      assert CleanHeader(hs[0]);
      hide CleanHeader, Named;
      SetClean(hs[1..], name, value);
    }
  }

  lemma StripClean(name: string, value: string)
    requires CleanHeader(Header(name, value))
    ensures CleanHeader(Header(name, Strip(value)))
  {
    hide IsSpace, IsToken, IsControl;
    var k := Span(value, IsSpace);
    var l := value[k..];
    var s := Strip(value);
    hide RStrip;
    assert s == RStrip(l) && s <= l;
    forall i | 0 <= i < |s| ensures !IsControl(s[i]) { assert s[i] == l[i] == value[k + i]; }
  }

  lemma WithBodyClean(m: Message, content: string, contentType: string)
    requires Clean(m) && CleanHeader(Header(CONTENT_TYPE, contentType))
    ensures Clean(WithBody(m, content, contentType))
  {
    var n := |Utf8.Encode(content)|;
    NatStrPrintable(n);
    hide NatStr, Utf8.Encode, Set, CleanStart;
    SetClean(m.headers, CONTENT_TYPE, contentType);
    SetClean(Set(m.headers, CONTENT_TYPE, contentType), CONTENT_LENGTH, NatStr(n));
  }

  lemma {:induction false} GetStripped(hs: seq<Header>, name: string)
    ensures Get(StripValues(hs), name) == if Get(hs, name).Some? then Some(Strip(Get(hs, name).value)) else None
    decreases |hs|
  {
    hide Lower, Strip;
    if hs != [] { GetStripped(hs[1..], name); }
  }

  lemma SetBodyType(m: Message, content: string, contentType: string)
    ensures ContentTypeOf(StripValues(WrittenHeaders(WithBody(m, content, contentType)))) == Strip(contentType)
  {
    LowerTags();
    hide Strip, Get, Set, StripValues, Lower, NatStr, WrittenHeaders, Utf8.Encode;
    var w, typed := WithBody(m, content, contentType), Set(m.headers, CONTENT_TYPE, contentType);
    WrittenAsSet(m, content, contentType);
    GetSet(m.headers, CONTENT_TYPE, contentType);
    StripTwice(contentType);
    GetSetOther(typed, CONTENT_LENGTH, NatStr(|Utf8.Encode(content)|), CONTENT_TYPE);
    GetStripped(w.headers, CONTENT_TYPE);
  }

  /** A body set on a message arrives with its type, less trailing white space. */
  lemma SetBodyArrives(m: Message, content: string, contentType: string)
    requires Clean(m) && CleanHeader(Header(CONTENT_TYPE, contentType)) && RStrip(content) != ""
    ensures var r := ParseMessage(Decode(MessageBytes(WithBody(m, content, contentType))));
      r.Some? && r.value.body == Some(Body(RStrip(content), Strip(contentType)))
  {
    hide ParseMessage, Clean, CleanHeader, Decode, MessageBytes, RStrip, Strip, StripValues, WrittenHeaders,
         ContentTypeOf, Set;
    var w := WithBody(m, content, contentType);
    WithBodyClean(m, content, contentType);
    ParseEncoded(w);
    SetBodyType(m, content, contentType);
  }

  lemma LowerTags()
    ensures Lower(CONTENT_LENGTH) != Lower(CONTENT_TYPE)
  {
    assert |Lower(CONTENT_LENGTH)| != |Lower(CONTENT_TYPE)|;
  }

  lemma WrittenAsSet(m: Message, content: string, contentType: string)
    ensures var w := WithBody(m, content, contentType); WrittenHeaders(w) == w.headers
  {
    var n := |Utf8.Encode(content)|;
    hide Get, Set, NatStr, Utf8.Encode;
    NatStrPrintable(n);
    StripTrim(NatStr(n));
    hide Strip;
    GetSet(Set(m.headers, CONTENT_TYPE, contentType), CONTENT_LENGTH, NatStr(n));
  }

  // ---------- Connections ----------

  /** A message TCP can carry: with a body, and its length announced. */
  predicate Sendable(m: Message) { Clean(m) && m.body.Some? && Announced(m) }

  function Encodings(ms: seq<Message>): (r: seq<seq<Byte>>)
    ensures |r| == |ms|
    ensures forall i | 0 <= i < |r| :: r[i] == MessageBytes(ms[i])
  {
    if ms == [] then [] else [MessageBytes(ms[0])] + Encodings(ms[1..])
  }

  /** The framer cuts a stream of encodings back into the encodings. */
  lemma {:induction false} StreamFrames(ms: seq<Message>)
    requires forall i | 0 <= i < |ms| :: Sendable(ms[i])
    ensures Framable(Concat(Encodings(ms))) && Frames(Concat(Encodings(ms))) == (Encodings(ms), [])
    decreases |ms|
  {
    var buf := Concat(Encodings(ms));
    if ms == [] {
      EmptyFrames();
    } else {
      var m := ms[0];
      var b, rest := MessageBytes(m), Concat(Encodings(ms[1..]));
      assert buf == b + rest;
      assert Sendable(m);
      forall i | 0 <= i < |ms[1..]| ensures Sendable(ms[1..][i]) { assert ms[1..][i] == ms[i + 1]; }
      StreamFrames(ms[1..]);
      hide Concat, Encodings, MessageBytes, Clean, Framable, Frames, Cut, Extent, Find, FirstLength, WrittenHeaders,
           HeadLines, Utf8.Encode;
      EncodedExtent(m, rest);
      CutEncoded(m, rest);
      FramableStep(buf);
      FramesStep(buf);
    }
  }

  lemma EmptyFrames()
    ensures Framable([]) && Frames([]) == ([], [])
  {
    FindShort([], DELIM);
    assert Extent([]) == None;
    hide Find;
  }

  /**
   * However the bytes of a list of messages are chunked, exactly these messages come out, in
   * order, nothing is left over, and each parses back.
   */
  lemma Delivered(ms: seq<Message>, chunks: seq<seq<Byte>>)
    requires forall i | 0 <= i < |ms| :: Sendable(ms[i])
    requires Concat(chunks) == Concat(Encodings(ms))
    ensures Framable([] + Concat(chunks))
    ensures Deliver([], chunks) == (Encodings(ms), [])
    ensures forall i | 0 <= i < |ms| :: ParseMessage(Decode(Encodings(ms)[i])) == Some(Received(ms[i]))
  {
    StreamFrames(ms);
    assert [] + Concat(chunks) == Concat(chunks);
    assert Settled([]) by { FindShort([], DELIM); }
    hide Concat, MessageBytes, Framable, Frames, Cut, Find, Deliver, Decode, ParseMessage, Received;
    ChunkingIrrelevant([], chunks);
    forall i | 0 <= i < |ms| ensures ParseMessage(Decode(Encodings(ms)[i])) == Some(Received(ms[i])) {
      assert Sendable(ms[i]);
      ParseEncoded(ms[i]);
    }
  }

  // ---------- A length below zero ----------

  lemma {:induction false} AsciiLength(s: string)
    requires forall i | 0 <= i < |s| :: s[i] as int < 128
    ensures |Utf8.Encode(s)| == |s|
    decreases |s|
  {
    if s != "" { AsciiLength(s[1..]); }
  }

  const STALLING: Header := Header(CONTENT_LENGTH, "-23")

  lemma StallingValue()
    ensures ParseInt("-23") == Some(-23)
  {
    hide ParseInt;
    var t := NatStr(23);
    assert NatStr(2) == "2";
    assert t == "23";
    hide NatStr;
    assert IntStr(-23) == "-" + t;
    assert "-" + t == "-23";
    ParseIntStr(-23);
  }

  lemma AsciiHeaderLength(h: Header)
    requires IsToken(h.name) && forall i | 0 <= i < |h.value| :: h.value[i] as int < 128
    ensures |Utf8.Encode(HeaderLine(h))| == |h.name| + 2 + |h.value|
  {
    var line, n := HeaderLine(h), |h.name|;
    forall i | 0 <= i < |line| ensures line[i] as int < 128 {
      if i < n { TokenChar(h.name[i]); }
      else if i >= n + 2 { assert line[i] == h.value[i - n - 2]; }
    }
    AsciiLength(line);
  }

  lemma StallingClean()
    ensures IsToken(CONTENT_LENGTH) && CleanHeader(STALLING)
  {
  }

  lemma StallingShape()
    ensures Solid(HeaderLine(STALLING)) && |Utf8.Encode(HeaderLine(STALLING))| == 19
  {
    StallingClean();
    hide Solid, HeaderLine, Utf8.Encode, IsToken, IsControl;
    HeaderLineSolid(STALLING);
    AsciiHeaderLength(STALLING);
  }

  lemma StallingLength()
    ensures LengthOf([HeaderLine(STALLING)] + ["", ""]) == -23
  {
    StallingClean();
    hide ParseInt, IsLengthLine, IsToken, HeaderLine;
    StallingValue();
    LengthLine(STALLING);
    LengthLineValue(STALLING);
    var line := HeaderLine(STALLING);
    assert ([line] + ["", ""])[0] == line;
  }

  const STALLING_TEXT: string := "Content-Length: -23\r\n\r\n"

  lemma StallingText()
    ensures STALLING_TEXT == HeaderLine(STALLING) + (CRLF + CRLF)
  {
  }

  /** This header block announces minus its own size: the round leaves the buffer as it was and the loop never ends. */
  lemma NegativeLengthStalls()
    ensures var buf := Utf8.Encode(STALLING_TEXT); Cut(buf) == Some(([], buf)) && !Ends(buf)
  {
    StallingText();
    hide HeaderLine, ParseInt, Find, SplitOn, Decode, Utf8.Encode, IsLengthLine, Named, LengthOf, Join;
    var line := HeaderLine(STALLING);
    StallingShape();
    StallingLength();
    var lines := [line];
    assert Join(CRLF, lines) == line by { JoinOne(line); }
    BlockLines(lines);
    FindHead(lines, DELIM);
    EncodeBreaks();
    EncodeConcat(line, CRLF + CRLF);
    RoundTrip(line + (CRLF + CRLF));
    var buf := Utf8.Encode(line) + DELIM;
    assert buf[..23] == buf;
    assert Extent(buf) == Some(0);
    assert buf[..0] == [] && buf[0..] == buf;
    assert Cut(buf) == Some(([], buf));
  }

  lemma JoinOne(line: string)
    ensures Join(CRLF, [line]) == line
  {
  }
}
