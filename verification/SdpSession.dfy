/** The session object `SDPSession` (tinysip/sdp.py) with its text form. */
module SdpSession {
  import opened Text

  datatype MediaType = Audio | Video | Application | Data | Control

  datatype Attribute = Attribute(name: string, value: Option<string>)

  datatype Media = Media(
    kind: MediaType, port: int, protocol: string, formats: seq<string>, attributes: seq<Attribute>,
    address: Option<string>, ttl: Option<int>)

  datatype Session = Session(
    version: int, username: string, id: string, sessionVersion: string, origin: string, name: string,
    address: string, ttl: Option<int>, start: int, stop: int, attributes: seq<Attribute>, media: seq<Media>)

  const IN_IP4: string := "IN IP4"

  function TypeName(k: MediaType): string {
    match k
    case Audio => "audio"
    case Video => "video"
    case Application => "application"
    case Data => "data"
    case Control => "control"
  }

  function TypeOf(s: string): Option<MediaType> {
    if s == "audio" then Some(Audio)
    else if s == "video" then Some(Video)
    else if s == "application" then Some(Application)
    else if s == "data" then Some(Data)
    else if s == "control" then Some(Control)
    else None
  }

  // ---------- Encoding ----------

  function Field(tag: char, value: string): string { [tag] + ("=" + value) }

  /** A time to live that is absent or zero is not written. */
  function TtlText(ttl: Option<int>): string {
    if ttl.Some? && ttl.value != 0 then "/" + IntStr(ttl.value) else ""
  }

  function ConnectionLine(address: string, ttl: Option<int>): string {
    Field('c', IN_IP4 + (" " + (address + TtlText(ttl))))
  }

  function AttributeLine(a: Attribute): string {
    Field('a', a.name + (if a.value.Some? then ":" + a.value.value else ""))
  }

  function AttributeLines(attributes: seq<Attribute>): (r: seq<string>)
    ensures |r| == |attributes|
    ensures forall i | 0 <= i < |r| :: r[i] == AttributeLine(attributes[i])
  {
    if attributes == [] then [] else [AttributeLine(attributes[0])] + AttributeLines(attributes[1..])
  }

  function FormatWords(formats: seq<string>): seq<string> { if formats == [] then ["0"] else formats }

  function MediaLine(m: Media): string {
    Field('m', Join(" ", [TypeName(m.kind), IntStr(m.port), m.protocol] + FormatWords(m.formats)))
  }

  predicate HasConnection(m: Media) { m.address.Some? && m.address.value != "" }

  function MediaLines(m: Media): seq<string> {
    [MediaLine(m)]
    + ((if HasConnection(m) then [ConnectionLine(m.address.value, m.ttl)] else []) + AttributeLines(m.attributes))
  }

  function AllMediaLines(media: seq<Media>): seq<string> {
    if media == [] then [] else MediaLines(media[0]) + AllMediaLines(media[1..])
  }

  function VersionLine(s: Session): string { Field('v', IntStr(s.version)) }

  function OriginLine(s: Session): string {
    Field('o', Join(" ", [s.username, s.id, s.sessionVersion, "IN", "IP4", s.origin]))
  }

  function NameLine(s: Session): string { Field('s', s.name) }

  function TimeLine(s: Session): string { Field('t', Join(" ", [IntStr(s.start), IntStr(s.stop)])) }

  function HeadLines(s: Session): seq<string> {
    [VersionLine(s), OriginLine(s), NameLine(s), ConnectionLine(s.address, s.ttl), TimeLine(s)]
  }

  function Lines(s: Session): seq<string> {
    HeadLines(s) + (AttributeLines(s.attributes) + AllMediaLines(s.media))
  }

  function Encode(s: Session): string { Join(CRLF, Lines(s)) + CRLF }

  // ---------- Parsing ----------

  function AddAttribute(s: Session, a: Attribute): Session {
    if s.media == [] then s.(attributes := s.attributes + [a])
    else
      var last := s.media[|s.media| - 1];
      s.(media := s.media[..|s.media| - 1] + [last.(attributes := last.attributes + [a])])
  }

  /** A connection line always sets the address of the session, wherever it stands. */
  function SetConnection(s: Session, value: string): Option<Session> {
    if Find(value, IN_IP4) < 0 then Some(s)
    else
      var address := Strip(SplitOn(value, IN_IP4)[1]);
      var parts := SplitOn(address, "/");
      if |parts| == 1 then Some(s.(address := address))
      else if |parts| > 2 then None
      else
        var ttl :- ParseInt(parts[1]);
        Some(s.(address := parts[0], ttl := Some(ttl)))
  }

  function SetOrigin(s: Session, words: seq<string>): Session {
    if |words| < 6 then s
    else s.(username := words[0], id := words[1], sessionVersion := words[2], origin := words[5])
  }

  function SetTime(s: Session, words: seq<string>): Option<Session> {
    if |words| < 2 then Some(s)
    else
      var start :- ParseInt(words[0]);
      var stop :- ParseInt(words[1]);
      Some(s.(start := start, stop := stop))
  }

  function AddMedia(s: Session, words: seq<string>): Option<Session> {
    if |words| < 4 then Some(s)
    else
      var kind :- TypeOf(words[0]);
      var port :- ParseInt(words[1]);
      Some(s.(media := s.media + [Media(kind, port, words[2], words[3..], [], None, None)]))
  }

  function ReadAttribute(value: string): Attribute {
    var i := Find(value, ":");
    if i < 0 then Attribute(value, None) else Attribute(value[..i], Some(value[i + 1..]))
  }

  /** None is the ValueError of a number, a media type or a connection that does not read. */
  function ReadField(s: Session, field: string, value: string): Option<Session> {
    if field == "v" then
      var version :- ParseInt(value);
      Some(s.(version := version))
    else if field == "o" then Some(SetOrigin(s, SplitWs(value)))
    else if field == "s" then Some(s.(name := value))
    else if field == "c" then SetConnection(s, value)
    else if field == "t" then SetTime(s, SplitWs(value))
    else if field == "m" then AddMedia(s, SplitWs(value))
    else if field == "a" then Some(AddAttribute(s, ReadAttribute(value)))
    else Some(s)
  }

  function ReadLine(s: Session, line: string): Option<Session> {
    var i := Find(line, "=");
    if i < 0 then Some(s) else ReadField(s, line[..i], line[i + 1..])
  }

  function ReadLines(s: Session, lines: seq<string>): Option<Session>
    decreases |lines|
  {
    if lines == [] then Some(s)
    else
      var next :- ReadLine(s, Strip(lines[0]));
      ReadLines(next, lines[1..])
  }

  /** The object before its first line; the two identifiers default to readings of the clock. */
  function Fresh(clock: (string, string)): Session {
    Session(0, "-", clock.0, clock.1, "127.0.0.1", "SIP Session", "127.0.0.1", None, 0, 0, [], [])
  }

  function Parse(text: string, clock: (string, string)): Option<Session> {
    ReadLines(Fresh(clock), SplitOn(Strip(text), "\n"))
  }

  // ---------- The loops ----------

  lemma AllMediaSnoc(media: seq<Media>, m: Media)
    ensures AllMediaLines(media + [m]) == AllMediaLines(media) + MediaLines(m)
  {
    hide MediaLines;
    if media == [] {
      assert media + [m] == [m];
      assert [m][1..] == [];
      assert AllMediaLines([m]) == MediaLines(m) + AllMediaLines([]);
      assert MediaLines(m) + [] == MediaLines(m);
    } else {
      AllMediaSnoc(media[1..], m);
      assert (media + [m])[0] == media[0] && (media + [m])[1..] == media[1..] + [m];
      assert MediaLines(media[0]) + (AllMediaLines(media[1..]) + MediaLines(m)) == AllMediaLines(media) + MediaLines(m);
    }
  }

  method MediaText(m: Media) returns (lines: seq<string>)
    ensures lines == MediaLines(m)
  {
    hide MediaLine, ConnectionLine, AttributeLine;
    lines := [MediaLine(m)];
    if HasConnection(m) { lines := lines + [ConnectionLine(m.address.value, m.ttl)]; }
    ghost var front, all := lines, AttributeLines(m.attributes);
    for i := 0 to |m.attributes|
      invariant lines == front + all[..i]
    {
      assert all[..i + 1] == all[..i] + [all[i]];
      lines := lines + [AttributeLine(m.attributes[i])];
    }
    assert all[..|all|] == all;
  }

  method EncodeSession(s: Session) returns (text: string)
    ensures text == Encode(s)
  {
    hide VersionLine, OriginLine, NameLine, ConnectionLine, TimeLine, AttributeLine, MediaLines, Join;
    var lines := [VersionLine(s), OriginLine(s), NameLine(s), ConnectionLine(s.address, s.ttl), TimeLine(s)];
    ghost var all := AttributeLines(s.attributes);
    for i := 0 to |s.attributes|
      invariant lines == HeadLines(s) + all[..i]
    {
      assert all[..i + 1] == all[..i] + [all[i]];
      lines := lines + [AttributeLine(s.attributes[i])];
    }
    assert all[..|all|] == all;
    ghost var front := lines;
    assert s.media[..0] == [];
    for i := 0 to |s.media|
      invariant lines == front + AllMediaLines(s.media[..i])
    {
      assert s.media[..i + 1] == s.media[..i] + [s.media[i]];
      AllMediaSnoc(s.media[..i], s.media[i]);
      var block := MediaText(s.media[i]);
      lines := lines + block;
    }
    assert s.media[..|s.media|] == s.media;
    assert lines == Lines(s);
    text := Join(CRLF, lines) + CRLF;
  }

  method ParseSession(text: string, clock: (string, string)) returns (r: Option<Session>)
    ensures r == Parse(text, clock)
  {
    hide ReadLine, Strip, SplitOn;
    var lines := SplitOn(Strip(text), "\n");
    var s := Fresh(clock);
    assert lines[0..] == lines;
    for i := 0 to |lines|
      invariant ReadLines(s, lines[i..]) == ReadLines(Fresh(clock), lines)
    {
      assert lines[i..][0] == lines[i] && lines[i..][1..] == lines[i + 1..];
      var next := ReadLine(s, Strip(lines[i]));
      if next.None? { return None; }
      s := next.value;
    }
    r := Some(s);
  }
}
