/** SIP messages (tinysip/message.py): header operations, encoding to bytes, parsing of text. */
module SipMessages {
  import opened Text
  import opened Utf8

  datatype Method = INVITE | ACK | OPTIONS | BYE | CANCEL | REGISTER | INFO | MESSAGE

  /** `Unset` is an object that is neither request nor response. */
  datatype Start = Request(verb: Method, uri: string) | Response(status: int, reason: string) | Unset

  datatype Header = Header(name: string, value: string)

  datatype Body = Body(content: string, contentType: string)

  datatype Message = Message(start: Start, headers: seq<Header>, body: Option<Body>)

  const VERSION: string := "SIP/2.0"
  const CONTENT_LENGTH: string := "Content-Length"
  const CONTENT_TYPE: string := "Content-Type"
  const TEXT_PLAIN: string := "text/plain"

  function MethodName(m: Method): string {
    match m
    case INVITE => "INVITE"
    case ACK => "ACK"
    case OPTIONS => "OPTIONS"
    case BYE => "BYE"
    case CANCEL => "CANCEL"
    case REGISTER => "REGISTER"
    case INFO => "INFO"
    case MESSAGE => "MESSAGE"
  }

  function MethodOf(s: string): (r: Option<Method>)
    ensures r.Some? ==> MethodName(r.value) == s
    ensures r.None? ==> forall m :: MethodName(m) != s
  {
    if s == "INVITE" then Some(INVITE)
    else if s == "ACK" then Some(ACK)
    else if s == "OPTIONS" then Some(OPTIONS)
    else if s == "BYE" then Some(BYE)
    else if s == "CANCEL" then Some(CANCEL)
    else if s == "REGISTER" then Some(REGISTER)
    else if s == "INFO" then Some(INFO)
    else if s == "MESSAGE" then Some(MESSAGE)
    else None
  }

  // ---------- Headers ----------

  predicate Named(h: Header, name: string) { Lower(h.name) == Lower(name) }

  function NewHeader(name: string, value: string): Header { Header(Strip(name), Strip(value)) }

  /** The value of the first header of that name, in any letter case. */
  function Get(headers: seq<Header>, name: string): Option<string> {
    if headers == [] then None
    else if Named(headers[0], name) then Some(headers[0].value)
    else Get(headers[1..], name)
  }

  /** The first header of that name gets the value as given; without one, a new header goes last. */
  function Set(headers: seq<Header>, name: string, value: string): seq<Header> {
    if headers == [] then [NewHeader(name, value)]
    else if Named(headers[0], name) then [headers[0].(value := value)] + headers[1..]
    else [headers[0]] + Set(headers[1..], name, value)
  }

  function Remove(headers: seq<Header>, name: string): seq<Header> {
    if headers == [] then []
    else if Named(headers[0], name) then Remove(headers[1..], name)
    else [headers[0]] + Remove(headers[1..], name)
  }

  function WithBody(m: Message, content: string, contentType: string): Message {
    m.(body := Some(Body(content, contentType)),
    headers := Set(Set(m.headers, CONTENT_TYPE, contentType), CONTENT_LENGTH, NatStr(|Utf8.Encode(content)|)))
  }

  // ---------- Encoding ----------

  function StartLine(s: Start): string {
    match s
    case Request(verb, uri) => MethodName(verb) + (" " + (uri + (" " + VERSION)))
    case Response(status, reason) => VERSION + (" " + (IntStr(status) + (" " + reason)))
    case Unset => VERSION + " None None"
  }

  function HeaderLine(h: Header): string { h.name + (":" + (" " + h.value)) }

  function HeaderLines(headers: seq<Header>): (r: seq<string>)
    ensures |r| == |headers|
    ensures forall i | 0 <= i < |r| :: r[i] == HeaderLine(headers[i])
  {
    if headers == [] then [] else [HeaderLine(headers[0])] + HeaderLines(headers[1..])
  }

  /** The headers written: a body without a Content-Length gets one, last. */
  function WrittenHeaders(m: Message): seq<Header> {
    if m.body.Some? && Get(m.headers, CONTENT_LENGTH) in {None, Some("")} then
      m.headers + [Header(CONTENT_LENGTH, NatStr(|Utf8.Encode(m.body.value.content)|))]
    else m.headers
  }

  function HeadLines(m: Message): (r: seq<string>)
    ensures r != []
  {
    [StartLine(m.start)] + HeaderLines(WrittenHeaders(m))
  }

  function MessageLines(m: Message): seq<string> {
    HeadLines(m) + ([""] + (if m.body.Some? then [m.body.value.content] else []))
  }

  function MessageText(m: Message): string { Join(CRLF, MessageLines(m)) }

  function MessageBytes(m: Message): seq<Byte> { Utf8.Encode(MessageText(m)) }

  // ---------- Parsing ----------

  /** `s.split(" ", 2)`. */
  function SplitTwice(s: string): (r: seq<string>)
    ensures 1 <= |r| <= 3
  {
    var i := Find(s, " ");
    if i < 0 then [s]
    else
      var rest := s[i + 1..];
      var j := Find(rest, " ");
      if j < 0 then [s[..i], rest] else [s[..i], rest[..j], rest[j + 1..]]
  }

  predicate IsStatusLine(s: string) { |s| >= 4 && s[..4] == "SIP/" }

  /** None is the ValueError of an unknown method or a status that is no integer. */
  function ParseStart(line: string): Option<Start> {
    var parts := SplitTwice(line);
    if |parts| < 2 then Some(Unset)
    else if IsStatusLine(line) then
      var status :- ParseInt(parts[1]);
      Some(Response(status, if |parts| == 3 then parts[2] else ""))
    else
      var verb :- MethodOf(parts[0]);
      Some(Request(verb, Strip(parts[1])))
  }

  predicate IsBlank(line: string) { Strip(line) == "" }

  /** Lines before the first blank one. */
  function Upto(lines: seq<string>): (n: nat)
    ensures n <= |lines|
  {
    if lines == [] || IsBlank(lines[0]) then 0 else 1 + Upto(lines[1..])
  }

  /** A line without a colon is no header. */
  function ReadHeader(line: string): seq<Header> {
    var i := Find(line, ":");
    if i < 0 then [] else [NewHeader(Strip(line[..i]), Strip(line[i + 1..]))]
  }

  function ReadHeaders(lines: seq<string>): seq<Header> {
    if lines == [] then [] else ReadHeader(lines[0]) + ReadHeaders(lines[1..])
  }

  function ContentTypeOf(headers: seq<Header>): string {
    var t := Get(headers, CONTENT_TYPE);
    if t.Some? then t.value else TEXT_PLAIN
  }

  /** The body is what follows the blank line, unless nothing or only white space does. */
  function ReadBody(lines: seq<string>, headers: seq<Header>): Option<Body> {
    var n := Upto(lines);
    if n + 1 >= |lines| then None
    else
      var content := Join(CRLF, lines[n + 1..]);
      if IsBlank(content) then None else Some(Body(content, ContentTypeOf(headers)))
  }

  function ParseLines(lines: seq<string>): Option<Message>
    requires lines != []
  {
    var start :- ParseStart(Strip(lines[0]));
    var rest := lines[1..];
    var headers := ReadHeaders(rest[..Upto(rest)]);
    Some(Message(start, headers, ReadBody(rest, headers)))
  }

  function ParseMessage(text: string): Option<Message> { ParseLines(SplitOn(Strip(text), CRLF)) }

  // ---------- The message object ----------

  lemma ReadHeadersSnoc(lines: seq<string>, line: string)
    ensures ReadHeaders(lines + [line]) == ReadHeaders(lines) + ReadHeader(line)
  {
    hide ReadHeader;
    if lines == [] {
      assert lines + [line] == [line];
      assert ReadHeaders([line]) == ReadHeader(line) + ReadHeaders([line][1..]);
      assert ReadHeaders([line][1..]) == [];
    } else {
      ReadHeadersSnoc(lines[1..], line);
      assert (lines + [line])[0] == lines[0] && (lines + [line])[1..] == lines[1..] + [line];
    }
  }

  lemma HeaderLinesSnoc(headers: seq<Header>, h: Header)
    ensures HeaderLines(headers + [h]) == HeaderLines(headers) + [HeaderLine(h)]
  {
    hide HeaderLine;
    assert HeaderLines(headers + [h]) == HeaderLines(headers) + [HeaderLine(h)];
  }

  lemma {:induction false} SetFirst(headers: seq<Header>, i: nat, name: string, value: string)
    requires i < |headers| && Named(headers[i], name)
    requires forall j | 0 <= j < i :: !Named(headers[j], name)
    ensures Set(headers, name, value) == headers[i := headers[i].(value := value)]
    decreases i
  {
    hide Named;
    var changed := headers[i].(value := value);
    if i == 0 {
      assert headers[0 := changed] == [changed] + headers[1..];
    } else {
      var t := headers[1..];
      assert !Named(headers[0], name);
      assert t[i - 1] == headers[i];
      forall j | 0 <= j < i - 1 ensures !Named(t[j], name) { assert t[j] == headers[j + 1]; }
      SetFirst(t, i - 1, name, value);
      assert [headers[0]] + t[i - 1 := changed] == headers[i := changed];
    }
  }

  lemma {:induction false} SetMissing(headers: seq<Header>, name: string, value: string)
    requires forall j | 0 <= j < |headers| :: !Named(headers[j], name)
    ensures Set(headers, name, value) == headers + [NewHeader(name, value)]
    decreases |headers|
  {
    hide Named, NewHeader;
    if headers == [] {
      assert headers + [NewHeader(name, value)] == [NewHeader(name, value)];
    } else {
      assert !Named(headers[0], name);
      var t := headers[1..];
      forall j | 0 <= j < |t| ensures !Named(t[j], name) { assert t[j] == headers[j + 1]; }
      SetMissing(t, name, value);
      assert [headers[0]] + (t + [NewHeader(name, value)]) == headers + [NewHeader(name, value)];
    }
  }

  class SipMessage {
    var start: Start
    var headers: seq<Header>
    var body: Option<Body>

    ghost function View(): Message
      reads this
    {
      Message(start, headers, body)
    }

    constructor ()
      ensures View() == Message(Unset, [], None)
    {
      start, headers, body := Unset, [], None;
    }

    method AddHeader(name: string, value: string)
      modifies this
      ensures View() == old(View()).(headers := old(headers) + [NewHeader(name, value)])
    {
      headers := headers + [NewHeader(name, value)];
    }

    method GetHeader(name: string) returns (r: Option<string>)
      ensures r == Get(headers, name)
    {
      assert headers[0..] == headers;
      for i := 0 to |headers|
        invariant Get(headers, name) == Get(headers[i..], name)
      {
        assert headers[i..][0] == headers[i] && headers[i..][1..] == headers[i + 1..];
        if Lower(headers[i].name) == Lower(name) { return Some(headers[i].value); }
      }
      return None;
    }

    method SetHeader(name: string, value: string)
      modifies this
      ensures View() == old(View()).(headers := Set(old(headers), name, value))
    {
      hide Lower, Strip;
      for i := 0 to |headers|
        invariant unchanged(this)
        invariant forall j | 0 <= j < i :: !Named(headers[j], name)
      {
        if Lower(headers[i].name) == Lower(name) {
          SetFirst(headers, i, name, value);
          headers := headers[i := headers[i].(value := value)];
          return;
        }
      }
      SetMissing(headers, name, value);
      AddHeader(name, value);
    }

    method RemoveHeader(name: string)
      modifies this
      ensures View() == old(View()).(headers := Remove(old(headers), name))
    {
      var kept: seq<Header> := [];
      assert headers[0..] == headers;
      for i := 0 to |headers|
        invariant unchanged(this)
        invariant kept + Remove(headers[i..], name) == Remove(headers, name)
      {
        assert headers[i..][0] == headers[i] && headers[i..][1..] == headers[i + 1..];
        if Lower(headers[i].name) != Lower(name) {
          assert kept + ([headers[i]] + Remove(headers[i + 1..], name))
            == (kept + [headers[i]]) + Remove(headers[i + 1..], name);
          kept := kept + [headers[i]];
        }
      }
      assert kept + [] == kept;
      headers := kept;
    }

    method SetBody(content: string, contentType: string)
      modifies this
      ensures View() == WithBody(old(View()), content, contentType)
    {
      body := Some(Body(content, contentType));
      SetHeader(CONTENT_TYPE, contentType);
      SetHeader(CONTENT_LENGTH, NatStr(|Utf8.Encode(content)|));
    }

    method Encode() returns (r: seq<Byte>)
      ensures r == MessageBytes(View())
    {
      hide StartLine, HeaderLine, Get, NatStr, Utf8.Encode, Join;
      var first := StartLine(start);
      var lines := [first];
      ghost var all := HeaderLines(headers);
      for i := 0 to |headers|
        invariant lines == [first] + all[..i]
      {
        assert all[..i + 1] == all[..i] + [all[i]];
        lines := lines + [HeaderLine(headers[i])];
      }
      assert all[..|headers|] == all;
      var length := GetHeader(CONTENT_LENGTH);
      if body.Some? && (length.None? || length.value == "") {
        var extra := Header(CONTENT_LENGTH, NatStr(|Utf8.Encode(body.value.content)|));
        HeaderLinesSnoc(headers, extra);
        assert [first] + (all + [HeaderLine(extra)]) == [first] + all + [HeaderLine(extra)];
        lines := lines + [HeaderLine(extra)];
      }
      assert lines == HeadLines(View());
      hide HeadLines;
      lines := lines + [""];
      if body.Some? { lines := lines + [body.value.content]; }
      assert lines == MessageLines(View());
      r := Utf8.Encode(Join(CRLF, lines));
    }

    /** The header loop of `parse`: stops at the first blank line and says where. */
    method TakeHeaders(lines: seq<string>) returns (n: nat)
      requires headers == []
      modifies this
      ensures n == Upto(lines)
      ensures View() == old(View()).(headers := ReadHeaders(lines[..n]))
    {
      hide Strip, Find, IsBlank;
      n := 0;
      assert lines[0..] == lines && lines[..0] == [];
      while n < |lines| && !IsBlank(lines[n])
        invariant 0 <= n <= |lines|
        invariant Upto(lines) == n + Upto(lines[n..])
        invariant View() == old(View()).(headers := ReadHeaders(lines[..n]))
      {
        assert lines[n..][0] == lines[n] && lines[n..][1..] == lines[n + 1..];
        assert lines[..n + 1] == lines[..n] + [lines[n]];
        ReadHeadersSnoc(lines[..n], lines[n]);
        hide ReadHeaders, Upto;
        var colon := Find(lines[n], ":");
        if colon >= 0 { AddHeader(Strip(lines[n][..colon]), Strip(lines[n][colon + 1..])); }
        n := n + 1;
      }
    }

    /** `null` is the ValueError the start line can raise. */
    static method Parse(text: string) returns (msg: SipMessage?)
      ensures msg == null <==> ParseMessage(text).None?
      ensures msg != null ==> fresh(msg) && Some(msg.View()) == ParseMessage(text)
    {
      hide SplitOn, Strip, ParseStart, Join, IsBlank, ReadHeaders, Upto, Get;
      var all := SplitOn(Strip(text), CRLF);
      var start := ParseStart(Strip(all[0]));
      if start.None? { return null; }
      var lines := all[1..];
      msg := new SipMessage();
      msg.start := start.value;
      var n := msg.TakeHeaders(lines);
      if n + 1 < |lines| {
        var content := Join(CRLF, lines[n + 1..]);
        if !IsBlank(content) {
          var contentType := msg.GetHeader(CONTENT_TYPE);
          msg.body := Some(Body(content, if contentType.Some? then contentType.value else TEXT_PLAIN));
        }
      }
    }
  }
}
