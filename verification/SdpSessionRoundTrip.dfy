/** Parsing the text of a session gives the session back, up to what the text does not say. */
module SdpSessionRoundTrip {
  import opened Text
  import opened SdpSession

  // ---------- Sessions the text can carry ----------

  /** Text that may end a line: no line feed, no white space at its end. */
  predicate Tail(s: string) { '\n' !in s && (s == "" || NotSpace(s[|s| - 1])) }

  predicate CleanAttribute(a: Attribute) {
    ':' !in a.name && '\n' !in a.name && (if a.value.Some? then Tail(a.value.value) else Tail(a.name))
  }

  predicate CleanAddress(a: string) { IsWord(a) && '/' !in a }

  predicate CleanMedia(m: Media) {
    && IsWord(m.protocol)
    && (forall i | 0 <= i < |m.formats| :: IsWord(m.formats[i]))
    && (forall i | 0 <= i < |m.attributes| :: CleanAttribute(m.attributes[i]))
    && (HasConnection(m) ==> CleanAddress(m.address.value))
  }

  predicate CleanSession(s: Session) {
    && IsWord(s.username) && IsWord(s.id) && IsWord(s.sessionVersion) && IsWord(s.origin) && Tail(s.name)
    && CleanAddress(s.address)
    && (forall i | 0 <= i < |s.attributes| :: CleanAttribute(s.attributes[i]))
    && (forall i | 0 <= i < |s.media| :: CleanMedia(s.media[i]))
  }

  // ---------- Splitting into lines ----------

  predicate PlainLine(l: string) { l != "" && Trim(l) && '\n' !in l }

  /** The lines as `split("\n")` sees them. */
  function WithCr(lines: seq<string>): (r: seq<string>)
    ensures |r| == |lines|
  {
    if |lines| <= 1 then lines else [lines[0] + "\r"] + WithCr(lines[1..])
  }

  lemma {:induction false} JoinWithCr(lines: seq<string>)
    ensures Join("\n", WithCr(lines)) == Join(CRLF, lines)
    decreases |lines|
  {
    if |lines| > 1 {
      JoinWithCr(lines[1..]);
      var r := WithCr(lines);
      var rest := Join(CRLF, lines[1..]);
      assert r[0] == lines[0] + "\r" && r[1..] == WithCr(lines[1..]);
      assert (lines[0] + "\r") + ("\n" + rest) == lines[0] + (CRLF + rest);
    }
  }

  lemma LineWithCr(l: string)
    requires PlainLine(l)
    ensures '\n' !in l + "\r" && Strip(l + "\r") == l && Strip(l) == l
  {
    assert All("\r", IsSpace);
    StripTrim(l);
    hide Strip, IsSpace;
    StripPad(l, "\r");
  }

  lemma {:induction false} WithCrClean(lines: seq<string>)
    requires forall i | 0 <= i < |lines| :: PlainLine(lines[i])
    ensures forall i | 0 <= i < |lines| :: '\n' !in WithCr(lines)[i] && Strip(WithCr(lines)[i]) == lines[i]
    decreases |lines|
  {
    hide Strip;
    if lines != [] {
      assert PlainLine(lines[0]);
      LineWithCr(lines[0]);
    }
    if |lines| > 1 {
      hide PlainLine;
      var t, r := lines[1..], WithCr(lines);
      forall i | 0 <= i < |t| ensures PlainLine(t[i]) { assert t[i] == lines[i + 1]; }
      WithCrClean(t);
      assert r == [lines[0] + "\r"] + WithCr(t);
      hide WithCr;
      forall i | 0 <= i < |lines| ensures '\n' !in r[i] && Strip(r[i]) == lines[i] {
        if i > 0 { assert r[i] == WithCr(t)[i - 1] && lines[i] == t[i - 1]; }
      }
    }
  }

  /** Reading depends on the stripped lines only. */
  lemma {:induction false} ReadStripped(s: Session, a: seq<string>, b: seq<string>)
    requires |a| == |b| && forall i | 0 <= i < |a| :: Strip(a[i]) == Strip(b[i])
    ensures ReadLines(s, a) == ReadLines(s, b)
    decreases |a|
  {
    hide Strip, ReadLine;
    if a != [] {
      assert Strip(a[0]) == Strip(b[0]);
      var next := ReadLine(s, Strip(a[0]));
      if next.Some? {
        forall i | 0 <= i < |a[1..]| ensures Strip(a[1..][i]) == Strip(b[1..][i]) {
          assert Strip(a[i + 1]) == Strip(b[i + 1]);
        }
        ReadStripped(next.value, a[1..], b[1..]);
      }
    }
  }

  lemma {:induction false} JoinLastChar(lines: seq<string>)
    requires lines != [] && forall i | 0 <= i < |lines| :: PlainLine(lines[i])
    ensures var t := Join(CRLF, lines); t != "" && Trim(t)
    decreases |lines|
  {
    assert PlainLine(lines[0]);
    if |lines| > 1 {
      var rest := lines[1..];
      forall i | 0 <= i < |rest| ensures PlainLine(rest[i]) { assert rest[i] == lines[i + 1]; }
      JoinLastChar(rest);
      var t, r := Join(CRLF, lines), Join(CRLF, rest);
      hide IsSpace;
      assert t == lines[0] + (CRLF + r);
      assert t[0] == lines[0][0] && t[|t| - 1] == r[|r| - 1];
    }
  }

  lemma StrippedAlike(lines: seq<string>)
    requires forall i | 0 <= i < |lines| :: PlainLine(lines[i])
    ensures forall i | 0 <= i < |lines| :: Strip(WithCr(lines)[i]) == Strip(lines[i])
  {
    WithCrClean(lines);
    hide Strip, WithCr, IsSpace;
    forall i | 0 <= i < |lines| ensures Strip(WithCr(lines)[i]) == Strip(lines[i]) {
      assert PlainLine(lines[i]);
      StripTrim(lines[i]);
    }
  }

  lemma StripText(lines: seq<string>)
    requires lines != [] && forall i | 0 <= i < |lines| :: PlainLine(lines[i])
    ensures Strip(Join(CRLF, lines) + CRLF) == Join(CRLF, lines)
  {
    assert All(CRLF, IsSpace);
    hide Strip, Join, IsSpace, PlainLine;
    JoinLastChar(lines);
    StripPad(Join(CRLF, lines), CRLF);
  }

  lemma ParsePlain(lines: seq<string>, clock: (string, string))
    requires lines != [] && forall i | 0 <= i < |lines| :: PlainLine(lines[i])
    ensures Parse(Join(CRLF, lines) + CRLF, clock) == ReadLines(Fresh(clock), lines)
  {
    hide Strip, SplitOn, Join, PlainLine, ReadLines, WithCr, Fresh;
    StripText(lines);
    JoinWithCr(lines);
    WithCrClean(lines);
    SplitOnJoin(WithCr(lines), "\n");
    StrippedAlike(lines);
    ReadStripped(Fresh(clock), WithCr(lines), lines);
  }

  lemma {:induction false} ReadLinesConcat(s: Session, a: seq<string>, b: seq<string>)
    ensures ReadLines(s, a + b) == if ReadLines(s, a).Some? then ReadLines(ReadLines(s, a).value, b) else None
    decreases |a|
  {
    hide ReadLine, Strip;
    if a == [] {
      assert a + b == b;
    } else {
      assert (a + b)[0] == a[0] && (a + b)[1..] == a[1..] + b;
      var next := ReadLine(s, Strip(a[0]));
      if next.Some? { ReadLinesConcat(next.value, a[1..], b); }
    }
  }

  // ---------- One line ----------

  lemma FieldReads(s: Session, tag: char, value: string)
    requires NotSpace(tag) && tag != '=' && tag != '\n' && Tail(value)
    ensures PlainLine(Field(tag, value)) && ReadLine(s, Field(tag, value)) == ReadField(s, [tag], value)
  {
    var l := Field(tag, value);
    assert NotSpace('=');
    FindAfter([tag], value, "=");
    hide IsSpace, Find, ReadField;
    assert l[..1] == [tag] && l[2..] == value;
    assert l[0] == tag;
    assert l[|l| - 1] == if value == "" then '=' else value[|value| - 1];
  }

  lemma Tags()
    ensures NotSpace('v') && NotSpace('o') && NotSpace('s') && NotSpace('c') && NotSpace('t') && NotSpace('m')
        && NotSpace('a')
  {
  }

  lemma WordTail(w: string)
    requires IsWord(w)
    ensures Tail(w)
  {
    assert IsSpace('\n');
    forall i | 0 <= i < |w| ensures w[i] != '\n' { assert NotSpace(w[i]); }
  }

  lemma {:induction false} WordsTail(words: seq<string>)
    requires words != [] && forall i | 0 <= i < |words| :: IsWord(words[i])
    ensures Tail(Join(" ", words)) && Join(" ", words) != ""
    decreases |words|
  {
    assert IsWord(words[0]);
    WordTail(words[0]);
    if |words| > 1 {
      var t := words[1..];
      forall i | 0 <= i < |t| ensures IsWord(t[i]) { assert t[i] == words[i + 1]; }
      WordsTail(t);
      hide IsSpace, IsWord;
      var r := Join(" ", t);
      var j := words[0] + (" " + r);
      assert j[|j| - 1] == r[|r| - 1];
    }
  }

  lemma VersionReads(s: Session, x: Session)
    ensures PlainLine(VersionLine(x)) && ReadLine(s, VersionLine(x)) == Some(s.(version := x.version))
  {
    hide IntStr, ParseInt, IsSpace, IsWord, Field, ReadLine, PlainLine;
    Tags();
    IntStrIsWord(x.version);
    WordTail(IntStr(x.version));
    ParseIntStr(x.version);
    FieldReads(s, 'v', IntStr(x.version));
  }

  /** A field made of words reads as those words. */
  lemma WordsRead(s: Session, tag: char, words: seq<string>)
    requires NotSpace(tag) && tag != '=' && tag != '\n'
    requires words != [] && forall i | 0 <= i < |words| :: IsWord(words[i])
    ensures PlainLine(Field(tag, Join(" ", words)))
    ensures ReadLine(s, Field(tag, Join(" ", words))) == ReadField(s, [tag], Join(" ", words))
    ensures SplitWs(Join(" ", words)) == words
  {
    hide IsSpace, IsWord, Field, ReadLine, PlainLine, Join, SplitWs, ReadField;
    WordsTail(words);
    SplitWsJoin(words);
    FieldReads(s, tag, Join(" ", words));
  }

  lemma OriginReads(s: Session, x: Session)
    requires IsWord(x.username) && IsWord(x.id) && IsWord(x.sessionVersion) && IsWord(x.origin)
    ensures PlainLine(OriginLine(x))
    ensures ReadLine(s, OriginLine(x))
         == Some(s.(username := x.username, id := x.id, sessionVersion := x.sessionVersion, origin := x.origin))
  {
    assert IsWord("IN") && IsWord("IP4");
    hide IsSpace, IsWord, Field, ReadLine, PlainLine, Join, SplitWs;
    Tags();
    WordsRead(s, 'o', [x.username, x.id, x.sessionVersion, "IN", "IP4", x.origin]);
  }

  lemma NameReads(s: Session, x: Session)
    requires Tail(x.name)
    ensures PlainLine(NameLine(x)) && ReadLine(s, NameLine(x)) == Some(s.(name := x.name))
  {
    hide IsSpace, Field, ReadLine, PlainLine;
    Tags();
    FieldReads(s, 's', x.name);
  }

  lemma TimeReads(s: Session, x: Session)
    ensures PlainLine(TimeLine(x)) && ReadLine(s, TimeLine(x)) == Some(s.(start := x.start, stop := x.stop))
  {
    hide IsSpace, IsWord, Field, ReadLine, PlainLine, Join, SplitWs, IntStr, ParseInt;
    Tags();
    IntStrIsWord(x.start);
    IntStrIsWord(x.stop);
    ParseIntStr(x.start);
    ParseIntStr(x.stop);
    WordsRead(s, 't', [IntStr(x.start), IntStr(x.stop)]);
  }

  // ---------- Connection lines ----------

  /** With blanks only in front, the marker cannot occur again. */
  lemma {:induction false} NoMarker(s: string)
    requires forall i | 2 <= i < |s| :: s[i] != ' '
    ensures Find(s, IN_IP4) == -1
    decreases |s|
  {
    assert IN_IP4[2] == ' ';
    if |s| >= |IN_IP4| {
      assert s[2] != ' ';
      NoMarker(s[1..]);
    }
  }

  lemma SplitMarker(w: string)
    requires ' ' !in w
    ensures Find(IN_IP4 + (" " + w), IN_IP4) == 0 && SplitOn(IN_IP4 + (" " + w), IN_IP4) == ["", " " + w]
  {
    var s, r := IN_IP4 + (" " + w), " " + w;
    assert forall i | 2 <= i < |r| :: r[i] != ' ';
    NoMarker(r);
    assert IN_IP4 <= s;
    assert Find(s, IN_IP4) == 0;
    assert s[|IN_IP4|..] == r && s[..0] == "";
    assert SplitOn(r, IN_IP4) == [r];
    hide Find;
    assert SplitOn(s, IN_IP4) == [s[..0]] + SplitOn(s[|IN_IP4|..], IN_IP4);
  }

  predicate Printed(ttl: Option<int>) { ttl.Some? && ttl.value != 0 }

  /** What is written after the marker and a blank. */
  function AddressText(address: string, ttl: Option<int>): string { address + TtlText(ttl) }

  lemma AddressWord(address: string, ttl: Option<int>)
    requires CleanAddress(address)
    ensures var w := AddressText(address, ttl); IsWord(w) && ' ' !in w
  {
    assert IsSpace(' ') && NotSpace('/');
    var w := AddressText(address, ttl);
    if Printed(ttl) {
      var n := IntStr(ttl.value);
      IntStrIsWord(ttl.value);
      hide IntStr, IsSpace;
      assert w == address + ("/" + n);
      forall i | 0 <= i < |w| ensures NotSpace(w[i]) {
        if i < |address| { assert w[i] == address[i]; }
        else if i > |address| { assert w[i] == n[i - |address| - 1]; }
      }
    } else {
      assert w == address;
    }
    hide IsSpace;
    forall i | 0 <= i < |w| ensures w[i] != ' ' { assert NotSpace(w[i]); }
  }

  lemma StripBlankWord(w: string)
    requires IsWord(w)
    ensures Strip(" " + w) == w
  {
    assert (" " + w)[1..] == w;
    assert Span(w, IsSpace) == 0;
    assert Span(" " + w, IsSpace) == 1;
    StripTrim(w);
  }

  /** Reading the address part. */
  function Connected(s: Session, address: string, ttl: Option<int>): Session {
    s.(address := address, ttl := if Printed(ttl) then ttl else s.ttl)
  }

  lemma SlashAbsent(n: int)
    ensures '/' !in IntStr(n)
  {
    var t := IntStr(n);
    assert forall i | 0 <= i < |t| :: IsDigit(t[i]) || t[i] == '-' by { IntStrChars(n); }
    hide IntStr;
  }

  lemma IntStrChars(n: int)
    ensures forall i | 0 <= i < |IntStr(n)| :: IsDigit(IntStr(n)[i]) || IntStr(n)[i] == '-'
  {
  }

  lemma SplitAddress(address: string, ttl: Option<int>)
    requires CleanAddress(address)
    ensures SplitOn(AddressText(address, ttl), "/") == if Printed(ttl) then [address, IntStr(ttl.value)] else [address]
  {
    hide IsWord;
    if Printed(ttl) {
      var n := IntStr(ttl.value);
      SlashAbsent(ttl.value);
      hide IntStr, SplitOn;
      SplitOnCons(address, n, "/");
      SplitOnNone(n, "/");
    } else {
      assert AddressText(address, ttl) == address;
      hide SplitOn;
      SplitOnNone(address, "/");
    }
  }

  lemma ConnectionValue(s: Session, address: string, ttl: Option<int>)
    requires CleanAddress(address)
    ensures SetConnection(s, IN_IP4 + (" " + AddressText(address, ttl))) == Some(Connected(s, address, ttl))
  {
    hide IntStr, ParseInt, IsSpace, IsWord, SplitOn, Find, Strip, CleanAddress, AddressText;
    var w := AddressText(address, ttl);
    AddressWord(address, ttl);
    if Printed(ttl) { ParseIntStr(ttl.value); }
    SplitMarker(w);
    StripBlankWord(w);
    SplitAddress(address, ttl);
    assert !Printed(ttl) ==> w == address by { AddressAlone(address, ttl); }
  }

  lemma AddressAlone(address: string, ttl: Option<int>)
    ensures !Printed(ttl) ==> AddressText(address, ttl) == address
  {
  }

  lemma ConnectionReads(s: Session, address: string, ttl: Option<int>)
    requires CleanAddress(address)
    ensures PlainLine(ConnectionLine(address, ttl))
    ensures ReadLine(s, ConnectionLine(address, ttl)) == Some(Connected(s, address, ttl))
  {
    hide IsSpace, IsWord, CleanAddress, Field, ReadLine, PlainLine, SetConnection, TtlText;
    Tags();
    var w := AddressText(address, ttl);
    AddressWord(address, ttl);
    WordTail(w);
    WordNonempty(w);
    var v := IN_IP4 + (" " + w);
    assert Tail(v) by { assert v[|v| - 1] == w[|w| - 1]; assert '\n' !in IN_IP4; }
    FieldReads(s, 'c', v);
    ConnectionValue(s, address, ttl);
  }

  lemma WordNonempty(w: string)
    requires IsWord(w)
    ensures w != ""
  {
  }

  // ---------- Attributes ----------

  function AttributeText(a: Attribute): string { a.name + (if a.value.Some? then ":" + a.value.value else "") }

  lemma AttributeTail(a: Attribute)
    requires CleanAttribute(a)
    ensures Tail(AttributeText(a))
  {
    assert NotSpace(':');
    hide IsSpace;
    var t := AttributeText(a);
    if a.value.Some? {
      var v := a.value.value;
      assert t == a.name + (":" + v);
      assert t[|t| - 1] == if v == "" then ':' else v[|v| - 1];
    } else {
      assert t == a.name;
    }
  }

  lemma AttributeValue(a: Attribute)
    requires ':' !in a.name
    ensures ReadAttribute(AttributeText(a)) == a
  {
    var t := AttributeText(a);
    if a.value.Some? {
      FindAfter(a.name, a.value.value, ":");
      hide Find;
      assert t[..|a.name|] == a.name && t[|a.name| + 1..] == a.value.value;
    } else {
      assert t == a.name;
      FindSkip(a.name, "", ":");
      assert a.name + "" == a.name;
      FindShort("", ":");
    }
  }

  lemma AttributeReads(s: Session, a: Attribute)
    requires CleanAttribute(a)
    ensures PlainLine(AttributeLine(a)) && ReadLine(s, AttributeLine(a)) == Some(AddAttribute(s, a))
  {
    AttributeTail(a);
    AttributeValue(a);
    hide IsSpace, Field, ReadLine, PlainLine, AddAttribute, ReadAttribute, Tail;
    Tags();
    FieldReads(s, 'a', AttributeText(a));
  }

  /** Attributes go to the last media description, or to the session before the first. */
  function AddAttributes(s: Session, more: seq<Attribute>): Session {
    if s.media == [] then s.(attributes := s.attributes + more)
    else
      var last := s.media[|s.media| - 1];
      s.(media := s.media[..|s.media| - 1] + [last.(attributes := last.attributes + more)])
  }

  lemma AddAttributesCons(s: Session, a: Attribute, more: seq<Attribute>)
    ensures AddAttributes(AddAttribute(s, a), more) == AddAttributes(s, [a] + more)
  {
    if s.media == [] {
      assert (s.attributes + [a]) + more == s.attributes + ([a] + more);
    } else {
      var n := |s.media| - 1;
      var last := s.media[n];
      var t := AddAttribute(s, a);
      assert t.media[..n] == s.media[..n];
      assert (last.attributes + [a]) + more == last.attributes + ([a] + more);
    }
  }

  lemma AddNoAttributes(s: Session)
    ensures AddAttributes(s, []) == s
  {
    if s.media == [] {
      assert s.attributes + [] == s.attributes;
    } else {
      var last := s.media[|s.media| - 1];
      assert last.attributes + [] == last.attributes;
      assert s.media == s.media[..|s.media| - 1] + [last];
    }
  }

  lemma ReadCons(s: Session, l: string, rest: seq<string>)
    requires PlainLine(l) && ReadLine(s, l).Some?
    ensures ReadLines(s, [l] + rest) == ReadLines(ReadLine(s, l).value, rest)
  {
    StripTrim(l);
    hide ReadLine, Strip, PlainLine;
    assert ([l] + rest)[0] == l && ([l] + rest)[1..] == rest;
  }

  lemma {:induction false} AttributesRead(s: Session, attributes: seq<Attribute>)
    requires forall i | 0 <= i < |attributes| :: CleanAttribute(attributes[i])
    ensures ReadLines(s, AttributeLines(attributes)) == Some(AddAttributes(s, attributes))
    ensures forall i | 0 <= i < |attributes| :: PlainLine(AttributeLines(attributes)[i])
    decreases |attributes|
  {
    hide CleanAttribute, ReadLine, PlainLine, AttributeLine, AddAttribute, AddAttributes;
    if attributes == [] {
      AddNoAttributes(s);
    } else {
      var a, t := attributes[0], attributes[1..];
      assert CleanAttribute(a);
      AttributeReads(s, a);
      forall i | 0 <= i < |t| ensures CleanAttribute(t[i]) { assert t[i] == attributes[i + 1]; }
      AttributesRead(AddAttribute(s, a), t);
      AddAttributesCons(s, a, t);
      assert [a] + t == attributes;
      ReadCons(s, AttributeLine(a), AttributeLines(t));
      forall i | 0 <= i < |attributes| ensures PlainLine(AttributeLines(attributes)[i]) {
        if i > 0 { assert AttributeLines(attributes)[i] == AttributeLines(t)[i - 1]; }
      }
    }
  }

  // ---------- Media descriptions ----------

  function Bare(m: Media): Media { Media(m.kind, m.port, m.protocol, FormatWords(m.formats), m.attributes, None, None) }

  function Absorb(s: Session, m: Media): Session {
    var t := s.(media := s.media + [Bare(m)]);
    if HasConnection(m) then Connected(t, m.address.value, m.ttl) else t
  }

  lemma MediaWords(m: Media)
    requires CleanMedia(m)
    ensures var words := [TypeName(m.kind), IntStr(m.port), m.protocol] + FormatWords(m.formats);
      |words| >= 4 && words[3..] == FormatWords(m.formats) && forall i | 0 <= i < |words| :: IsWord(words[i])
  {
    var words := [TypeName(m.kind), IntStr(m.port), m.protocol] + FormatWords(m.formats);
    IntStrIsWord(m.port);
    assert IsWord(TypeName(m.kind)) && IsWord("0");
    hide IsWord, IntStr, TypeName, CleanAttribute;
    forall i | 0 <= i < |words| ensures IsWord(words[i]) {
      if i >= 3 { assert words[i] == FormatWords(m.formats)[i - 3]; }
    }
  }

  lemma MediaAdded(s: Session, m: Media, words: seq<string>)
    requires |words| >= 4 && words[0] == TypeName(m.kind) && words[1] == IntStr(m.port) && words[2] == m.protocol
    requires words[3..] == FormatWords(m.formats)
    ensures AddMedia(s, words) == Some(s.(media := s.media + [Bare(m).(attributes := [])]))
  {
    assert TypeOf(TypeName(m.kind)) == Some(m.kind);
    hide TypeName, TypeOf, IntStr, ParseInt, FormatWords;
    ParseIntStr(m.port);
  }

  lemma MediaLineReads(s: Session, m: Media)
    requires CleanMedia(m)
    ensures PlainLine(MediaLine(m))
    ensures ReadLine(s, MediaLine(m)) == Some(s.(media := s.media + [Bare(m).(attributes := [])]))
  {
    hide IsSpace, IsWord, Field, ReadLine, PlainLine, Join, SplitWs, IntStr, TypeName, FormatWords, CleanMedia,
         AddMedia, Bare;
    MediaWords(m);
    Tags();
    var words := [TypeName(m.kind), IntStr(m.port), m.protocol] + FormatWords(m.formats);
    WordsRead(s, 'm', words);
    MediaAdded(s, m, words);
  }

  lemma AbsorbAttributes(s: Session, m: Media)
    ensures AddAttributes(s.(media := s.media + [Bare(m).(attributes := [])]), m.attributes)
        == s.(media := s.media + [Bare(m)])
  {
    var b := Bare(m).(attributes := []);
    var t := s.(media := s.media + [b]);
    assert t.media[..|t.media| - 1] == s.media;
    assert [] + m.attributes == m.attributes;
  }

  lemma ConnectedAttributes(s: Session, address: string, ttl: Option<int>, more: seq<Attribute>)
    ensures AddAttributes(Connected(s, address, ttl), more) == Connected(AddAttributes(s, more), address, ttl)
  {
  }

  lemma SingleThen(l: string, rest: seq<string>)
    requires PlainLine(l) && forall i | 0 <= i < |rest| :: PlainLine(rest[i])
    ensures forall i | 0 <= i < |[l] + rest| :: PlainLine(([l] + rest)[i])
  {
    hide PlainLine;
    AllPlain([l], rest);
  }

  lemma MediaParts(m: Media)
    requires CleanMedia(m)
    ensures forall i | 0 <= i < |m.attributes| :: CleanAttribute(m.attributes[i])
    ensures HasConnection(m) ==> CleanAddress(m.address.value)
  {
    hide CleanAttribute, CleanAddress;
  }

  lemma MediaReads(s: Session, m: Media)
    requires CleanMedia(m)
    ensures ReadLines(s, MediaLines(m)) == Some(Absorb(s, m))
    ensures forall i | 0 <= i < |MediaLines(m)| :: PlainLine(MediaLines(m)[i])
  {
    hide CleanMedia, CleanAttribute, CleanAddress, ReadLine, PlainLine, MediaLine, ConnectionLine, AddAttributes,
         AttributeLines, ReadLines, Connected, Bare;
    MediaParts(m);
    MediaLineReads(s, m);
    var s1 := s.(media := s.media + [Bare(m).(attributes := [])]);
    var rest := AttributeLines(m.attributes);
    AbsorbAttributes(s, m);
    AttributesRead(s1, m.attributes);
    if HasConnection(m) {
      var c := ConnectionLine(m.address.value, m.ttl);
      ConnectionReads(s1, m.address.value, m.ttl);
      AttributesRead(Connected(s1, m.address.value, m.ttl), m.attributes);
      ConnectedAttributes(s1, m.address.value, m.ttl, m.attributes);
      ReadCons(s, MediaLine(m), [c] + rest);
      ReadCons(s1, c, rest);
      SingleThen(c, rest);
      SingleThen(MediaLine(m), [c] + rest);
    } else {
      ReadCons(s, MediaLine(m), rest);
      SingleThen(MediaLine(m), rest);
      assert [] + rest == rest;
    }
  }

  function AbsorbAll(s: Session, media: seq<Media>): Session
    decreases |media|
  {
    if media == [] then s else AbsorbAll(Absorb(s, media[0]), media[1..])
  }

  lemma {:induction false} AllMediaRead(s: Session, media: seq<Media>)
    requires forall i | 0 <= i < |media| :: CleanMedia(media[i])
    ensures ReadLines(s, AllMediaLines(media)) == Some(AbsorbAll(s, media))
    ensures forall i | 0 <= i < |AllMediaLines(media)| :: PlainLine(AllMediaLines(media)[i])
    decreases |media|
  {
    hide CleanMedia, MediaLines, Absorb, PlainLine;
    if media != [] {
      var m, t := media[0], media[1..];
      assert CleanMedia(m);
      forall i | 0 <= i < |t| ensures CleanMedia(t[i]) { assert t[i] == media[i + 1]; }
      hide ReadLines;
      MediaReads(s, m);
      AllMediaRead(Absorb(s, m), t);
      ReadLinesConcat(s, MediaLines(m), AllMediaLines(t));
      AllPlain(MediaLines(m), AllMediaLines(t));
    } else {
      ReadNothing(s);
    }
  }

  lemma ReadNothing(s: Session)
    ensures ReadLines(s, []) == Some(s)
  {
  }

  lemma AllPlain(a: seq<string>, b: seq<string>)
    requires (forall i | 0 <= i < |a| :: PlainLine(a[i])) && (forall i | 0 <= i < |b| :: PlainLine(b[i]))
    ensures forall i | 0 <= i < |a + b| :: PlainLine((a + b)[i])
  {
    hide PlainLine;
    forall i | 0 <= i < |a + b| ensures PlainLine((a + b)[i]) {
      if i >= |a| { assert (a + b)[i] == b[i - |a|]; }
    }
  }

  // ---------- Whole sessions ----------

  function PrintedTtl(ttl: Option<int>): Option<int> { if Printed(ttl) then ttl else None }

  /** The session the text says: connections of media descriptions end up in the session. */
  function Parsed(s: Session): Session { AbsorbAll(s.(ttl := PrintedTtl(s.ttl), media := []), s.media) }

  lemma HeadReads(s: Session, clock: (string, string))
    requires CleanSession(s)
    ensures ReadLines(Fresh(clock), HeadLines(s)) == Some(s.(ttl := PrintedTtl(s.ttl), attributes := [], media := []))
    ensures forall i | 0 <= i < |HeadLines(s)| :: PlainLine(HeadLines(s)[i])
  {
    hide IsWord, Tail, CleanAddress, CleanAttribute, CleanMedia, ReadLine, PlainLine, VersionLine, OriginLine, NameLine,
         ConnectionLine, TimeLine, ReadLines;
    var a := Fresh(clock);
    VersionReads(a, s);
    var b := a.(version := s.version);
    OriginReads(b, s);
    var c := b.(username := s.username, id := s.id, sessionVersion := s.sessionVersion, origin := s.origin);
    NameReads(c, s);
    var d := c.(name := s.name);
    ConnectionReads(d, s.address, s.ttl);
    var e := Connected(d, s.address, s.ttl);
    TimeReads(e, s);
    var f := e.(start := s.start, stop := s.stop);
    var l5: seq<string> := [TimeLine(s)];
    var l4 := [ConnectionLine(s.address, s.ttl)] + l5;
    var l3 := [NameLine(s)] + l4;
    var l2 := [OriginLine(s)] + l3;
    assert HeadLines(s) == [VersionLine(s)] + l2;
    ReadCons(a, VersionLine(s), l2);
    ReadCons(b, OriginLine(s), l3);
    ReadCons(c, NameLine(s), l4);
    ReadCons(d, ConnectionLine(s.address, s.ttl), l5);
    ReadCons(e, TimeLine(s), []);
    assert [TimeLine(s)] + [] == l5;
    ReadNothing(f);
  }

  /** Parsing the text of any clean session. */
  lemma ParseEncode(s: Session, clock: (string, string))
    requires CleanSession(s)
    ensures Parse(Encode(s), clock) == Some(Parsed(s))
  {
    assert (forall i | 0 <= i < |s.attributes| :: CleanAttribute(s.attributes[i]))
      && (forall i | 0 <= i < |s.media| :: CleanMedia(s.media[i]));
    hide CleanSession, CleanAttribute, CleanMedia, PlainLine, HeadLines, AttributeLines, AllMediaLines, ReadLines,
         AbsorbAll, Parse, Fresh, Join;
    var h, a, m := HeadLines(s), AttributeLines(s.attributes), AllMediaLines(s.media);
    var start := s.(ttl := PrintedTtl(s.ttl), attributes := [], media := []);
    HeadReads(s, clock);
    AttributesRead(start, s.attributes);
    var body := AddAttributes(start, s.attributes);
    assert body == s.(ttl := PrintedTtl(s.ttl), media := []) by { assert [] + s.attributes == s.attributes; }
    AllMediaRead(body, s.media);
    ReadLinesConcat(start, a, m);
    ReadLinesConcat(Fresh(clock), h, a + m);
    AllPlain(a, m);
    AllPlain(h, a + m);
    HeadNonempty(s);
    ParsePlain(h + (a + m), clock);
  }

  lemma HeadNonempty(s: Session)
    ensures |HeadLines(s)| == 5
  {
  }

  /** A session as its text determines it: formats never empty, a zero time to live absent. */
  function NormalMedia(m: Media): Media {
    if HasConnection(m) then Bare(m).(address := m.address, ttl := PrintedTtl(m.ttl)) else Bare(m)
  }

  function NormalAll(media: seq<Media>): (r: seq<Media>)
    ensures |r| == |media|
    ensures forall i | 0 <= i < |r| :: r[i] == NormalMedia(media[i])
  {
    if media == [] then [] else [NormalMedia(media[0])] + NormalAll(media[1..])
  }

  function Normal(s: Session): Session { s.(ttl := PrintedTtl(s.ttl), media := NormalAll(s.media)) }

  function Bares(media: seq<Media>): (r: seq<Media>)
    ensures |r| == |media|
    ensures forall i | 0 <= i < |r| :: r[i] == Bare(media[i])
  {
    if media == [] then [] else [Bare(media[0])] + Bares(media[1..])
  }

  lemma {:induction false} AbsorbAllIs(s: Session, media: seq<Media>)
    ensures AbsorbAll(s, media).media == s.media + Bares(media)
    ensures (forall i | 0 <= i < |media| :: !HasConnection(media[i])) ==>
        AbsorbAll(s, media) == s.(media := s.media + Bares(media))
    decreases |media|
  {
    hide Bare;
    if media == [] {
      assert s.media + [] == s.media;
    } else {
      var t := media[1..];
      AbsorbAllIs(Absorb(s, media[0]), t);
      assert (s.media + [Bare(media[0])]) + Bares(t) == s.media + ([Bare(media[0])] + Bares(t));
      if forall i | 0 <= i < |media| :: !HasConnection(media[i]) {
        forall i | 0 <= i < |t| ensures !HasConnection(t[i]) { assert t[i] == media[i + 1]; }
      }
    }
  }

  lemma NoConnections(s: Session)
    requires forall i | 0 <= i < |s.media| :: !HasConnection(s.media[i])
    ensures Parsed(s) == Normal(s)
  {
    var b := s.(ttl := PrintedTtl(s.ttl), media := []);
    AbsorbAllIs(b, s.media);
    hide AbsorbAll, Bare, PrintedTtl, HasConnection;
    assert [] + Bares(s.media) == Bares(s.media);
    forall i | 0 <= i < |s.media| ensures NormalAll(s.media)[i] == Bares(s.media)[i] {
      assert !HasConnection(s.media[i]);
    }
    assert NormalAll(s.media) == Bares(s.media);
  }

  /** A connection of a media description is read as one of the session. */
  lemma ConnectionMoves(s: Session, i: nat)
    requires i < |s.media| && HasConnection(s.media[i])
    ensures |Parsed(s).media| == |s.media| == |Normal(s).media|
    ensures Parsed(s).media[i].address == None && Normal(s).media[i].address == s.media[i].address
  {
    var b := s.(ttl := PrintedTtl(s.ttl), media := []);
    AbsorbAllIs(b, s.media);
    hide AbsorbAll, PrintedTtl;
    assert [] + Bares(s.media) == Bares(s.media);
    assert Parsed(s).media[i] == Bare(s.media[i]);
  }

  /**
   * Parsing inverts encoding, up to what the text leaves out, exactly when no media description has
   * its own connection.
   */
  lemma RoundTripExact(s: Session, clock: (string, string))
    requires CleanSession(s)
    ensures Parse(Encode(s), clock) == Some(Normal(s)) <==> forall i | 0 <= i < |s.media| :: !HasConnection(s.media[i])
  {
    ParseEncode(s, clock);
    if forall i | 0 <= i < |s.media| :: !HasConnection(s.media[i]) {
      hide *;
      NoConnections(s);
    } else {
      var i :| 0 <= i < |s.media| && HasConnection(s.media[i]);
      assert s.media[i].address != None;
      hide *;
      ConnectionMoves(s, i);
    }
  }

  lemma {:induction false} NormalLines(media: seq<Media>)
    ensures AllMediaLines(NormalAll(media)) == AllMediaLines(media)
    decreases |media|
  {
    if media != [] {
      NormalLines(media[1..]);
      assert NormalAll(media)[1..] == NormalAll(media[1..]);
      NormalMediaLines(media[0]);
      hide MediaLines, NormalMedia;
    }
  }

  lemma NormalMediaLines(m: Media)
    ensures MediaLines(NormalMedia(m)) == MediaLines(m)
  {
    hide IntStr, Join;
    assert FormatWords(FormatWords(m.formats)) == FormatWords(m.formats);
  }

  /** Normalising does not change the text. */
  lemma NormalText(s: Session)
    ensures Encode(Normal(s)) == Encode(s)
  {
    NormalLines(s.media);
    hide AllMediaLines, NormalAll, Join, IntStr;
  }

  /** Without connections of their own, encoding what was parsed reproduces the text. */
  lemma EncodeParse(s: Session, clock: (string, string))
    requires CleanSession(s) && forall i | 0 <= i < |s.media| :: !HasConnection(s.media[i])
    ensures var r := Parse(Encode(s), clock); r.Some? && Encode(r.value) == Encode(s)
  {
    hide Parse, Encode, CleanSession, HasConnection, Normal;
    RoundTripExact(s, clock);
    NormalText(s);
  }
}
