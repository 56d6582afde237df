/**
 What a session description announces, how it is printed, and the proof that printing and
 parsing are inverse: the parser recovers every announced section from the printed text.
 */
module SdpText {
  import opened Text
  import opened PyDict
  import opened SdpModel
  import opened SdpParser

  datatype Header = Header(origin: string, sessionName: string, ip: string, timing: string)

  /** One media section; a refused one carries no attributes. */
  datatype Section = Section(media: string, port: int, proto: string, fmts: seq<int>,
                             direction: Option<string>, rtcpMux: bool,
                             rtpmaps: seq<(int, Codec)>, fmtps: seq<(int, Params)>)

  // ---------- Printing ----------

  function IntStrs(ns: seq<int>): (r: seq<string>)
    ensures |r| == |ns| && forall i | 0 <= i < |ns| :: r[i] == IntStr(ns[i])
  {
    seq(|ns|, i requires 0 <= i < |ns| => IntStr(ns[i]))
  }

  function MediaLine(media: string, port: int, proto: string, fmts: seq<int>): string {
    "m=" + (media + (" " + (IntStr(port) + (" " + (proto + (" " + Join(" ", IntStrs(fmts))))))))
  }

  function ChannelSuffix(channels: int): string {
    if channels != 0 && channels != 1 then "/" + IntStr(channels) else ""
  }

  function RtpmapLine(pt: int, c: Codec): string {
    "a=rtpmap:" + (IntStr(pt) + (" " + (c.name + ("/" + (IntStr(c.clock) + ChannelSuffix(c.channels))))))
  }

  function Pairs(fmtp: Params): (r: seq<string>)
    ensures |r| == |fmtp| && forall i | 0 <= i < |fmtp| :: r[i] == fmtp[i].0 + ("=" + fmtp[i].1)
  {
    seq(|fmtp|, i requires 0 <= i < |fmtp| => fmtp[i].0 + ("=" + fmtp[i].1))
  }

  function FmtpLine(pt: int, fmtp: Params): string {
    "a=fmtp:" + (IntStr(pt) + (" " + Join(";", Pairs(fmtp))))
  }

  function HeaderLines(h: Header): seq<string> {
    ["v=0"] + (["o=" + h.origin] + (["s=" + h.sessionName] + (["c=IN IP4 " + h.ip] + (["t=" + h.timing] + []))))
  }

  function RtpmapLines(rs: seq<(int, Codec)>): (r: seq<string>)
    ensures |r| == |rs| && forall i | 0 <= i < |rs| :: r[i] == RtpmapLine(rs[i].0, rs[i].1)
  {
    seq(|rs|, i requires 0 <= i < |rs| => RtpmapLine(rs[i].0, rs[i].1))
  }

  function FmtpLines(fs: seq<(int, Params)>): (r: seq<string>)
    ensures |r| == |fs| && forall i | 0 <= i < |fs| :: r[i] == FmtpLine(fs[i].0, fs[i].1)
  {
    seq(|fs|, i requires 0 <= i < |fs| => FmtpLine(fs[i].0, fs[i].1))
  }

  function FlagLines(s: Section): seq<string> {
    (if s.direction.Some? then ["a=" + s.direction.value] else []) + (if s.rtcpMux then ["a=rtcp-mux"] else [])
  }

  function AttributeLines(s: Section): seq<string> {
    FlagLines(s) + RtpmapLines(s.rtpmaps) + FmtpLines(s.fmtps)
  }

  function SectionLines(s: Section): seq<string> {
    [MediaLine(s.media, s.port, s.proto, s.fmts)] + AttributeLines(s)
  }

  function AllSectionLines(secs: seq<Section>): seq<string> {
    if secs == [] then [] else SectionLines(secs[0]) + AllSectionLines(secs[1..])
  }

  function Lines(h: Header, secs: seq<Section>): seq<string> { HeaderLines(h) + AllSectionLines(secs) }

  function Render(h: Header, secs: seq<Section>): string { Join(CRLF, Lines(h, secs)) + CRLF }

  // ---------- What can be announced without ambiguity ----------

  ghost predicate CleanText(s: string) { Trim(s) && All(s, NotLineBreak) }

  ghost predicate CleanHeader(h: Header) {
    CleanText(h.origin) && CleanText(h.sessionName) && CleanText(h.timing) && IsWord(h.ip)
  }

  ghost predicate CleanCodec(c: Codec) {
    c.name != "" && All(c.name, IsEncodingChar) && c.clock >= 0 && c.channels >= 1
  }

  ghost predicate CleanParam(p: (string, string)) {
    CleanText(p.0) && CleanText(p.1) && ';' !in p.0 && ';' !in p.1 && '=' !in p.0
  }

  ghost predicate CleanParams(fmtp: Params) {
    DistinctKeys(fmtp) && forall i | 0 <= i < |fmtp| :: CleanParam(fmtp[i])
  }

  ghost predicate CleanSection(s: Section) {
    && s.media != "" && All(s.media, IsAlpha) && s.port >= 0
    && s.proto != "" && All(s.proto, IsProtoChar)
    && s.fmts != [] && (forall i | 0 <= i < |s.fmts| :: s.fmts[i] >= 0)
    && (s.direction.Some? ==> IsDirection(s.direction.value))
    && DistinctKeys(s.rtpmaps) && (forall i | 0 <= i < |s.rtpmaps| :: s.rtpmaps[i].0 >= 0 && CleanCodec(s.rtpmaps[i].1))
    && DistinctKeys(s.fmtps)
    && (forall i | 0 <= i < |s.fmtps| :: s.fmtps[i].0 >= 0 && s.fmtps[i].1 != [] && CleanParams(s.fmtps[i].1))
  }

  // ---------- What the parser should make of it ----------

  function RtpEntries(rs: seq<(int, Codec)>): (r: Dict<int, RtpMap>)
    ensures |r| == |rs|
    ensures forall i | 0 <= i < |rs| ::
        r[i] == (rs[i].0, RtpMap(rs[i].0, rs[i].1.name, rs[i].1.clock, rs[i].1.channels))
  {
    seq(|rs|, i requires 0 <= i < |rs| => (rs[i].0, RtpMap(rs[i].0, rs[i].1.name, rs[i].1.clock, rs[i].1.channels)))
  }

  function Announced(s: Section): MediaDesc {
    MediaDesc(s.media, s.port, s.proto, s.fmts, None, s.direction, RtpEntries(s.rtpmaps), s.fmtps, s.rtcpMux)
  }

  function AnnouncedAll(secs: seq<Section>): (r: seq<MediaDesc>)
    ensures |r| == |secs| && forall i | 0 <= i < |secs| :: r[i] == Announced(secs[i])
  {
    seq(|secs|, i requires 0 <= i < |secs| => Announced(secs[i]))
  }

  function Expected(h: Header, secs: seq<Section>): Parsed {
    Parsed(h.origin, h.sessionName, Some(h.ip), if h.timing == "" then "0 0" else h.timing,
           InheritAll(AnnouncedAll(secs), Some(h.ip), None))
  }

  // ---------- Each line matches back ----------

  lemma IntStrDigits(n: int)
    requires n >= 0
    ensures IntStr(n) != "" && All(IntStr(n), IsDigit) && NatVal(IntStr(n)) == n
  {
    NatValStr(n);
  }

  lemma {:induction false} ParseIntStrs(ns: seq<int>)
    ensures ParseInts(IntStrs(ns)) == Some(ns)
    decreases |ns|
  {
    if ns != [] {
      var ws := IntStrs(ns);
      assert ParseInt(ws[0]) == Some(ns[0]) by { ParseIntStr(ns[0]); }
      assert ws[1..] == IntStrs(ns[1..]);
      ParseIntStrs(ns[1..]);
      assert ns == [ns[0]] + ns[1..];
    }
  }

  lemma JoinedFormats(fmts: seq<int>)
    requires fmts != [] && forall i | 0 <= i < |fmts| :: fmts[i] >= 0
    ensures var f := Join(" ", IntStrs(fmts));
      ParseInts(SplitWs(f)) == Some(fmts) && f != "" && IsDigit(f[0]) && IsDigit(f[|f| - 1])
  {
    var ws := IntStrs(fmts);
    forall i | 0 <= i < |ws| ensures IsWord(ws[i]) { IntStrIsWord(fmts[i]); }
    SplitWsJoin(ws);
    ParseIntStrs(fmts);
    JoinEnds(" ", ws);
    IntStrDigits(fmts[0]);
    IntStrDigits(fmts[|fmts| - 1]);
    var l := ws[|ws| - 1];
    assert IsDigit(l[|l| - 1]);
    assert IsDigit(ws[0][0]);
  }

  lemma MediaFieldsMatch(media: string, port: string, proto: string, f: string)
    requires media != "" && All(media, IsAlpha) && port != "" && All(port, IsDigit)
    requires proto != "" && All(proto, IsProtoChar) && f != "" && NotSpace(f[0])
    ensures MatchMedia("m=" + (media + (" " + (port + (" " + (proto + (" " + f)))))))
        == Some((media, NatVal(port), proto, f))
  {
    var r2 := proto + (" " + f);
    var r1 := port + (" " + r2);
    EatConcat("m=", media + (" " + r1));
    FieldConcat(IsAlpha, media, r1);
    FieldConcat(IsDigit, port, r2);
    FieldConcat(IsProtoChar, proto, f);
  }

  lemma MediaLineMatches(media: string, port: int, proto: string, fmts: seq<int>)
    requires media != "" && All(media, IsAlpha) && port >= 0 && proto != "" && All(proto, IsProtoChar)
    requires fmts != [] && forall i | 0 <= i < |fmts| :: fmts[i] >= 0
    ensures MatchMedia(MediaLine(media, port, proto, fmts)) == Some((media, port, proto, Join(" ", IntStrs(fmts))))
  {
    JoinedFormats(fmts);
    IntStrDigits(port);
    MediaFieldsMatch(media, IntStr(port), proto, Join(" ", IntStrs(fmts)));
  }

  lemma ConnectionLineMatches(ip: string)
    requires IsWord(ip)
    ensures MatchConnection("c=IN IP4 " + ip) == Some(ip)
  {
    var r2 := "IP4" + (" " + ip);
    assert Lower("c=IN") == "c=in" && Lower("IP4") == "ip4";
    assert Many1(IsSpace, " " + r2) == Some((" ", r2)) by { Many1Concat(IsSpace, " ", r2); }
    assert Many1(IsSpace, " " + ip) == Some((" ", ip)) by { Many1Concat(IsSpace, " ", ip); }
    assert Many1(NotSpace, ip) == Some((ip, "")) by { assert ip + "" == ip; Many1Concat(NotSpace, ip, ""); }
    hide Many1, Lower, IsWord;
    EatNoCaseConcat("c=in", "c=IN", " " + r2);
    EatNoCaseConcat("ip4", "IP4", " " + ip);
    hide EatNoCase;
    assert "c=IN" + (" " + r2) == "c=IN IP4 " + ip;
  }

  lemma RateMatches(clock: int, channels: int)
    requires clock >= 0 && channels >= 1
    ensures MatchRate(IntStr(clock) + ChannelSuffix(channels)) == Some((clock, channels))
  {
    IntStrDigits(clock);
    IntStrDigits(channels);
    var c, r := IntStr(clock), ChannelSuffix(channels);
    assert Many1(IsDigit, c + r) == Some((c, r)) by { Many1Concat(IsDigit, c, r); }
    if channels != 1 {
      var ch := IntStr(channels);
      assert Many1(IsDigit, ch) == Some((ch, "")) by { assert ch + "" == ch; Many1Concat(IsDigit, ch, ""); }
      EatConcat("/", ch);
      hide Many1, Eat, IntStr, NatVal;
    }
  }

  lemma RtpmapLineMatches(pt: int, c: Codec)
    requires pt >= 0 && CleanCodec(c)
    ensures MatchRtpmap(RtpmapLine(pt, c)) == Some(RtpMap(pt, c.name, c.clock, c.channels))
  {
    IntStrDigits(pt);
    RateMatches(c.clock, c.channels);
    var r2 := IntStr(c.clock) + ChannelSuffix(c.channels);
    var r1 := c.name + ("/" + r2);
    var r0 := IntStr(pt) + (" " + r1);
    assert Field(IsDigit, r0) == Some((IntStr(pt), r1)) by { FieldConcat(IsDigit, IntStr(pt), r1); }
    assert Many1(IsEncodingChar, r1) == Some((c.name, "/" + r2)) by { Many1Concat(IsEncodingChar, c.name, "/" + r2); }
    EatConcat("a=rtpmap:", r0);
    EatConcat("/", r2);
    hide Many1, Field, Eat, MatchRate, IntStr, NatVal, ChannelSuffix, CleanCodec;
  }

  lemma PairShape(p: (string, string))
    requires CleanParam(p)
    ensures var t := p.0 + ("=" + p.1); t != "" && Trim(t) && ';' !in t && All(t, NotLineBreak)
  {
    var t := p.0 + ("=" + p.1);
    assert t[0] == if p.0 == "" then '=' else p.0[0];
    assert t[|t| - 1] == if p.1 == "" then '=' else p.1[|p.1| - 1];
  }

  lemma AddPair(d: Params, p: (string, string))
    requires CleanParam(p) && !HasKey(d, p.0)
    ensures AddParam(d, p.0 + ("=" + p.1)) == d + [p]
  {
    var t := p.0 + ("=" + p.1);
    assert t != "" && Strip(t) == t && Strip(p.0) == p.0 && Strip(p.1) == p.1 by {
      PairShape(p);
      StripTrim(t);
      StripTrim(p.0);
      StripTrim(p.1);
    }
    assert Find(t, "=") == |p.0| by { FindAfter(p.0, p.1, "="); }
    hide Strip, Find, CleanParam;
    assert t[..|p.0|] == p.0 && t[|p.0| + 1..] == p.1;
    SetFresh(d, p.0, p.1);
  }

  lemma {:induction false} AddPairs(d: Params, fmtp: Params)
    requires DistinctKeys(d + fmtp)
    requires forall i | 0 <= i < |fmtp| :: CleanParam(fmtp[i])
    ensures AddParams(d, Pairs(fmtp)) == d + fmtp
    decreases |fmtp|
  {
    hide AddParam, CleanParam;
    if fmtp == [] {
      assert d + fmtp == d;
    } else {
      forall i | 0 <= i < |d| ensures d[i].0 != fmtp[0].0 {
        assert (d + fmtp)[i] == d[i] && (d + fmtp)[|d|] == fmtp[0];
      }
      AddPair(d, fmtp[0]);
      assert Pairs(fmtp)[1..] == Pairs(fmtp[1..]);
      assert d + [fmtp[0]] + fmtp[1..] == d + fmtp;
      AddPairs(d + [fmtp[0]], fmtp[1..]);
    }
  }

  lemma ParamsParseBack(fmtp: Params)
    requires fmtp != [] && CleanParams(fmtp)
    ensures ParseParams(Join(";", Pairs(fmtp))) == fmtp
  {
    forall i | 0 <= i < |fmtp| ensures ';' !in Pairs(fmtp)[i] { PairShape(fmtp[i]); }
    SplitOnJoin(Pairs(fmtp), ";");
    assert [] + fmtp == fmtp;
    AddPairs([], fmtp);
  }

  lemma PairsEnds(fmtp: Params)
    requires fmtp != [] && CleanParams(fmtp)
    ensures var j := Join(";", Pairs(fmtp)); j != "" && Trim(j)
  {
    var ps := Pairs(fmtp);
    PairShape(fmtp[0]);
    PairShape(fmtp[|fmtp| - 1]);
    JoinEnds(";", ps);
  }

  lemma FmtpLineMatches(pt: int, fmtp: Params)
    requires pt >= 0 && fmtp != [] && CleanParams(fmtp)
    ensures MatchFmtp(FmtpLine(pt, fmtp)) == Some((pt, Join(";", Pairs(fmtp))))
  {
    var j := Join(";", Pairs(fmtp));
    IntStrDigits(pt);
    PairsEnds(fmtp);
    EatConcat("a=fmtp:", IntStr(pt) + (" " + j));
    FieldConcat(IsDigit, IntStr(pt), j);
  }

  // ---------- A section is read back line by line ----------

  lemma AttributeLine(st: State, ln: string)
    requires Tagged(ln, 'a') && st.current.Some?
    ensures ParseLine(st, ln) == Some(st.(current := Some(MediaAttribute(st.current.value, ln))))
  {
    hide MediaAttribute, MatchMedia, MatchConnection, MatchDirection, Closed;
  }

  lemma TaggedConcat(lit: string, rest: string, c: char)
    requires Tagged(lit, c)
    ensures Tagged(lit + rest, c)
  {
  }

  lemma ReadRtpmap(md: MediaDesc, pt: int, c: Codec)
    requires pt >= 0 && CleanCodec(c) && !HasKey(md.rtpmap, pt)
    ensures Tagged(RtpmapLine(pt, c), 'a')
    ensures MediaAttribute(md, RtpmapLine(pt, c)) ==
            md.(rtpmap := md.rtpmap + [(pt, RtpMap(pt, c.name, c.clock, c.channels))])
  {
    hide IntStr, CleanCodec, MatchRtpmap, ChannelSuffix;
    var body := IntStr(pt) + (" " + (c.name + ("/" + (IntStr(c.clock) + ChannelSuffix(c.channels)))));
    TaggedConcat("a=rtpmap:", body, 'a');
    RtpmapLineMatches(pt, c);
    hide RtpmapLine;
    SetFresh(md.rtpmap, pt, RtpMap(pt, c.name, c.clock, c.channels));
  }

  lemma NotRtpmap(rest: string)
    ensures MatchRtpmap("a=fmtp:" + rest) == None
  {
    hide Field;
    var ln := "a=fmtp:" + rest;
    assert ln[2] == 'f' && "a=rtpmap:"[2] == 'r';
  }

  lemma ReadFmtp(md: MediaDesc, pt: int, fmtp: Params)
    requires pt >= 0 && fmtp != [] && CleanParams(fmtp) && !HasKey(md.fmtp, pt)
    ensures Tagged(FmtpLine(pt, fmtp), 'a')
    ensures MediaAttribute(md, FmtpLine(pt, fmtp)) == md.(fmtp := md.fmtp + [(pt, fmtp)])
  {
    hide IntStr, CleanParams, MatchRtpmap, MatchFmtp, MatchDirection, ParseParams, Join, Pairs;
    var body := IntStr(pt) + (" " + Join(";", Pairs(fmtp)));
    TaggedConcat("a=fmtp:", body, 'a');
    NotRtpmap(body);
    FmtpLineMatches(pt, fmtp);
    ParamsParseBack(fmtp);
    hide FmtpLine;
    SetFresh(md.fmtp, pt, fmtp);
  }

  lemma ReadDirection(md: MediaDesc, d: string)
    requires IsDirection(d)
    ensures MediaAttribute(md, "a=" + d) == md.(direction := Some(d))
  {
    var ln := "a=" + d;
    assert ln[2..] == d;
    assert MatchRtpmap(ln) == None by {
      assert "a=rtpmap:"[2] == 'r' && "a=rtpmap:"[3] == 't'; assert ln[2] == d[0] && ln[3] == d[1];
    }
    assert MatchFmtp(ln) == None by { assert "a=fmtp:"[2] == 'f'; assert ln[2] == d[0]; }
  }

  lemma ReadMux(md: MediaDesc)
    ensures MediaAttribute(md, "a=rtcp-mux") == md.(rtcpMux := true)
  {
    var ln := "a=rtcp-mux";
    assert MatchRtpmap(ln) == None by { assert "a=rtpmap:"[4] == 'p' && ln[4] == 'c'; }
    assert MatchFmtp(ln) == None by { assert "a=fmtp:"[2] == 'f' && ln[2] == 'r'; }
    assert ln[2..] == "rtcp-mux";
  }

  lemma {:induction false} ReadRtpmaps(st: State, md: MediaDesc, rs: seq<(int, Codec)>)
    requires st.current == Some(md)
    requires DistinctKeys(md.rtpmap + RtpEntries(rs))
    requires forall i | 0 <= i < |rs| :: rs[i].0 >= 0 && CleanCodec(rs[i].1)
    ensures ParseLines(st, RtpmapLines(rs)) ==
            Some(st.(current := Some(md.(rtpmap := md.rtpmap + RtpEntries(rs)))))
    decreases |rs|
  {
    hide ParseLine, MediaAttribute, RtpmapLine, CleanCodec;
    var es := RtpEntries(rs);
    if rs == [] {
      assert md.rtpmap + es == md.rtpmap;
    } else {
      forall i | 0 <= i < |md.rtpmap| ensures md.rtpmap[i].0 != rs[0].0 {
        assert (md.rtpmap + es)[i] == md.rtpmap[i] && (md.rtpmap + es)[|md.rtpmap|] == es[0];
      }
      ReadRtpmap(md, rs[0].0, rs[0].1);
      var md' := MediaAttribute(md, RtpmapLines(rs)[0]);
      AttributeLine(st, RtpmapLines(rs)[0]);
      assert RtpmapLines(rs)[1..] == RtpmapLines(rs[1..]);
      assert md'.rtpmap + RtpEntries(rs[1..]) == md.rtpmap + es;
      ReadRtpmaps(st.(current := Some(md')), md', rs[1..]);
    }
  }

  lemma {:induction false} ReadFmtps(st: State, md: MediaDesc, fs: seq<(int, Params)>)
    requires st.current == Some(md)
    requires DistinctKeys(md.fmtp + fs)
    requires forall i | 0 <= i < |fs| :: fs[i].0 >= 0 && fs[i].1 != [] && CleanParams(fs[i].1)
    ensures ParseLines(st, FmtpLines(fs)) == Some(st.(current := Some(md.(fmtp := md.fmtp + fs))))
    decreases |fs|
  {
    hide ParseLine, MediaAttribute, FmtpLine, CleanParams;
    if fs == [] {
      assert md.fmtp + fs == md.fmtp;
    } else {
      forall i | 0 <= i < |md.fmtp| ensures md.fmtp[i].0 != fs[0].0 {
        assert (md.fmtp + fs)[i] == md.fmtp[i] && (md.fmtp + fs)[|md.fmtp|] == fs[0];
      }
      ReadFmtp(md, fs[0].0, fs[0].1);
      var md' := MediaAttribute(md, FmtpLines(fs)[0]);
      AttributeLine(st, FmtpLines(fs)[0]);
      assert FmtpLines(fs)[1..] == FmtpLines(fs[1..]);
      assert md'.fmtp + fs[1..] == md.fmtp + fs;
      ReadFmtps(st.(current := Some(md')), md', fs[1..]);
    }
  }

  lemma ReadOne(st: State, md: MediaDesc, ln: string)
    requires st.current == Some(md) && Tagged(ln, 'a')
    ensures ParseLines(st, [ln]) == Some(st.(current := Some(MediaAttribute(md, ln))))
  {
    hide ParseLine, MediaAttribute;
    AttributeLine(st, ln);
    assert [ln][1..] == [];
  }

  lemma ReadFlags(st: State, md: MediaDesc, s: Section)
    requires st.current == Some(md) && md.direction == None && !md.rtcpMux
    requires s.direction.Some? ==> IsDirection(s.direction.value)
    ensures ParseLines(st, FlagLines(s)) ==
            Some(st.(current := Some(md.(direction := s.direction, rtcpMux := s.rtcpMux))))
  {
    hide ParseLine, MediaAttribute, IsDirection;
    var dirLines := if s.direction.Some? then ["a=" + s.direction.value] else [];
    var muxLines := if s.rtcpMux then ["a=rtcp-mux"] else [];
    var md1 := md.(direction := s.direction);
    var st1 := st.(current := Some(md1));
    if s.direction.Some? {
      ReadDirection(md, s.direction.value);
      ReadOne(st, md, "a=" + s.direction.value);
    }
    assert ParseLines(st, dirLines) == Some(st1);
    if s.rtcpMux {
      ReadMux(md1);
      ReadOne(st1, md1, "a=rtcp-mux");
    }
    assert ParseLines(st1, muxLines) == Some(st1.(current := Some(md1.(rtcpMux := s.rtcpMux))));
    hide ParseLines;
    ParseLinesConcat(st, dirLines, muxLines);
  }

  lemma RtpKeys(rs: seq<(int, Codec)>)
    requires DistinctKeys(rs)
    ensures DistinctKeys(RtpEntries(rs))
  {
  }

  lemma ReadAttributes(st: State, s: Section)
    requires CleanSection(s)
    requires st.current == Some(NewMedia(s.media, s.port, s.proto, s.fmts))
    ensures ParseLines(st, AttributeLines(s)) == Some(st.(current := Some(Announced(s))))
  {
    hide ParseLine, ParseLines, MediaAttribute, RtpmapLines, FmtpLines, FlagLines, CleanCodec, CleanParams, RtpEntries,
         IsDirection;
    var md := st.current.value;
    ReadFlags(st, md, s);
    var md2 := md.(direction := s.direction, rtcpMux := s.rtcpMux);
    var st2 := st.(current := Some(md2));
    var es := RtpEntries(s.rtpmaps);
    RtpKeys(s.rtpmaps);
    assert [] + es == es;
    ReadRtpmaps(st2, md2, s.rtpmaps);
    var md3 := md2.(rtpmap := es);
    var st3 := st.(current := Some(md3));
    ParseLinesConcat(st, FlagLines(s), RtpmapLines(s.rtpmaps));
    assert [] + s.fmtps == s.fmtps;
    ReadFmtps(st3, md3, s.fmtps);
    ParseLinesConcat(st, FlagLines(s) + RtpmapLines(s.rtpmaps), FmtpLines(s.fmtps));
  }

  lemma ReadMediaLine(st: State, s: Section)
    requires CleanSection(s)
    ensures s.port >= 0
    ensures ParseLine(st, MediaLine(s.media, s.port, s.proto, s.fmts)) ==
            Some(st.(media := Closed(st), current := Some(NewMedia(s.media, s.port, s.proto, s.fmts))))
  {
    var ln := MediaLine(s.media, s.port, s.proto, s.fmts);
    var f := Join(" ", IntStrs(s.fmts));
    hide MatchMedia, IntStr, IntStrs, Join, ParseInts, SplitWs, All;
    TaggedConcat("m=", s.media + (" " + (IntStr(s.port) + (" " + (s.proto + (" " + f))))), 'm');
    MediaLineMatches(s.media, s.port, s.proto, s.fmts);
    JoinedFormats(s.fmts);
    hide MediaLine, MatchConnection, MatchDirection, MediaAttribute, CleanSection, Closed;
  }

  lemma ReadSection(st: State, s: Section)
    requires CleanSection(s)
    ensures ParseLines(st, SectionLines(s)) ==
            Some(st.(media := Closed(st), current := Some(Announced(s))))
  {
    hide ParseLine, CleanSection, MediaLine, AttributeLines, Closed, Announced;
    var ln := MediaLine(s.media, s.port, s.proto, s.fmts);
    ReadMediaLine(st, s);
    var st1 := st.(media := Closed(st), current := Some(NewMedia(s.media, s.port, s.proto, s.fmts)));
    assert SectionLines(s)[0] == ln && SectionLines(s)[1..] == AttributeLines(s);
    ReadAttributes(st1, s);
  }

  lemma ReadNothing(st: State)
    ensures ParseLines(st, []) == Some(st)
  {
  }

  lemma {:induction false} ReadSections(st: State, secs: seq<Section>)
    requires forall i | 0 <= i < |secs| :: CleanSection(secs[i])
    ensures var r := ParseLines(st, AllSectionLines(secs));
            r.Some? && Closed(r.value) == Closed(st) + AnnouncedAll(secs)
            && r.value.(media := [], current := None) == st.(media := [], current := None)
    decreases |secs|
  {
    hide ParseLines, SectionLines, CleanSection, Announced;
    if secs == [] {
      ReadNothing(st);
      assert Closed(st) + AnnouncedAll(secs) == Closed(st);
    } else {
      ReadSection(st, secs[0]);
      var st1 := st.(media := Closed(st), current := Some(Announced(secs[0])));
      ParseLinesConcat(st, SectionLines(secs[0]), AllSectionLines(secs[1..]));
      ReadSections(st1, secs[1..]);
      assert Closed(st) + AnnouncedAll(secs) == Closed(st1) + AnnouncedAll(secs[1..]);
    }
  }

  lemma ReadTextLine(st: State, c: char, text: string)
    requires Trim(text) && (c == 'o' || c == 's' || c == 't')
    ensures ParseLine(st, [c, '='] + text) ==
            Some(if c == 'o' then st.(origin := text) else if c == 's' then st.(sessionName := text)
                 else st.(timing := text))
  {
    assert Strip(text) == text by { StripTrim(text); }
    hide Strip, Trim, MatchMedia, MatchConnection, MatchDirection, MediaAttribute, Closed;
    var ln := [c, '='] + text;
    assert ln[2..] == text;
  }

  lemma ReadVersionLine(st: State)
    ensures ParseLine(st, "v=0") == Some(st)
  {
    hide Strip, MatchMedia, MatchConnection, MatchDirection, MediaAttribute, Closed;
    assert "v=0"[0] == 'v';
  }

  lemma ReadConnectionLine(st: State, ip: string)
    requires IsWord(ip)
    ensures ParseLine(st, "c=IN IP4 " + ip) == Some(st.(conn := Some(ip)))
  {
    hide MatchMedia, MatchConnection, MatchDirection, MediaAttribute, Closed, IsWord, Strip;
    ConnectionLineMatches(ip);
    TaggedConcat("c=IN IP4 ", ip, 'c');
  }

  lemma ReadHeader(h: Header)
    requires CleanHeader(h)
    ensures ParseLines(INIT, HeaderLines(h)) ==
            Some(State(h.origin, h.sessionName, Some(h.ip), h.timing, [], None, None))
  {
    hide ParseLine;
    var s1 := INIT.(origin := h.origin);
    var s2 := s1.(sessionName := h.sessionName);
    var s3 := s2.(conn := Some(h.ip));
    var s4 := s3.(timing := h.timing);
    ReadVersionLine(INIT);
    ReadTextLine(INIT, 'o', h.origin);
    ReadTextLine(s1, 's', h.sessionName);
    ReadConnectionLine(s2, h.ip);
    ReadTextLine(s3, 't', h.timing);
    hide CleanHeader, ParseLines;
    ReadNothing(s4);
    ReadStep(s3, "t=" + h.timing, [], s4);
    ReadStep(s2, "c=IN IP4 " + h.ip, ["t=" + h.timing] + [], s3);
    ReadStep(s1, "s=" + h.sessionName, ["c=IN IP4 " + h.ip] + (["t=" + h.timing] + []), s2);
    ReadStep(INIT, "o=" + h.origin, ["s=" + h.sessionName] + (["c=IN IP4 " + h.ip] + (["t=" + h.timing] + [])), s1);
    ReadStep(INIT, "v=0",
             ["o=" + h.origin] + (["s=" + h.sessionName] + (["c=IN IP4 " + h.ip] + (["t=" + h.timing] + []))), INIT);
  }

  lemma ReadStep(st: State, ln: string, rest: seq<string>, st': State)
    requires ParseLine(st, ln) == Some(st')
    ensures ParseLines(st, [ln] + rest) == ParseLines(st', rest)
  {
    hide ParseLine;
    assert ([ln] + rest)[1..] == rest;
  }

  // ---------- Every printed line survives stripping and line splitting ----------

  /** Ends a line cleanly: no line break inside, no white space at the end. */
  ghost predicate Tail(s: string) {
    All(s, NotLineBreak) && (s == "" || NotSpace(s[|s| - 1]))
  }

  ghost predicate Solid(s: string) { All(s, NotSpace) }

  lemma SolidThen(a: string, b: string)
    requires Solid(a) && Tail(b)
    ensures Tail(a + b)
  {
    assert forall i | 0 <= i < |a| :: NotSpace(a[i]) && NotLineBreak(a[i]);
    assert a + b != "" ==> (a + b)[|a + b| - 1] == if b == "" then a[|a| - 1] else b[|b| - 1];
  }

  lemma SpaceThen(b: string)
    requires b != "" && Tail(b)
    ensures Tail(" " + b)
  {
    var s := " " + b;
    assert s[|s| - 1] == b[|b| - 1];
  }

  lemma TagThen(lit: string, b: string)
    requires lit != "" && Solid(lit) && Tail(b)
    ensures IsLine(lit + b)
  {
    SolidThen(lit, b);
    assert (lit + b)[0] == lit[0];
  }

  lemma {:induction false} JoinTail(sep: string, parts: seq<string>)
    requires Solid(sep) || sep == " "
    requires forall i | 0 <= i < |parts| :: parts[i] != "" && Tail(parts[i])
    ensures Tail(Join(sep, parts)) && (parts != [] ==> Join(sep, parts) != "")
    decreases |parts|
  {
    if |parts| > 1 {
      var rest := Join(sep, parts[1..]);
      JoinTail(sep, parts[1..]);
      if sep == " " { SpaceThen(rest); } else { SolidThen(sep, rest); }
      TailThen(parts[0], sep + rest);
    }
  }

  lemma TailThen(a: string, b: string)
    requires Tail(a) && Tail(b)
    ensures Tail(a + b)
  {
    assert a + b != "" ==> (a + b)[|a + b| - 1] == if b == "" then a[|a| - 1] else b[|b| - 1];
  }

  lemma IntStrSolid(n: int)
    ensures Solid(IntStr(n)) && IntStr(n) != "" && Tail(IntStr(n))
  {
    IntStrIsWord(n);
    var s := IntStr(n);
    hide IntStr;
    SolidThen(s, "");
    assert s + "" == s;
  }

  lemma MediaLineIsLine(media: string, port: int, proto: string, fmts: seq<int>)
    requires All(media, IsAlpha) && All(proto, IsProtoChar) && fmts != []
    ensures IsLine(MediaLine(media, port, proto, fmts))
  {
    assert Solid(media) && Solid(proto);
    hide IntStr, IsLine;
    forall i | 0 <= i < |fmts| ensures IntStrs(fmts)[i] != "" && Tail(IntStrs(fmts)[i]) { IntStrSolid(fmts[i]); }
    var f := Join(" ", IntStrs(fmts));
    JoinTail(" ", IntStrs(fmts));
    IntStrSolid(port);
    hide Tail, Solid, Join, IntStrs;
    SpaceThen(f);
    SolidThen(proto, " " + f);
    SpaceThen(proto + (" " + f));
    SolidThen(IntStr(port), " " + (proto + (" " + f)));
    SpaceThen(IntStr(port) + (" " + (proto + (" " + f))));
    SolidThen(media, " " + (IntStr(port) + (" " + (proto + (" " + f)))));
    LiteralsSolid();
    TagThen("m=", media + (" " + (IntStr(port) + (" " + (proto + (" " + f))))));
  }

  lemma LiteralsSolid()
    ensures Solid("m=") && Solid("a=") && Solid("a=rtpmap:") && Solid("a=fmtp:") && Solid("/") && Solid("=")
        && Solid(";")
    ensures Solid("o=") && Solid("s=") && Solid("t=") && Solid("c=IN") && Solid("IP4")
  {
  }

  lemma RtpmapLineIsLine(pt: int, c: Codec)
    requires CleanCodec(c)
    ensures IsLine(RtpmapLine(pt, c))
  {
    assert Solid(c.name) && c.name != "";
    var suffix := ChannelSuffix(c.channels);
    LiteralsSolid();
    IntStrSolid(pt);
    IntStrSolid(c.clock);
    IntStrSolid(c.channels);
    hide IntStr, IsLine;
    assert Tail(suffix) by {
      if suffix != "" { SolidThen("/", IntStr(c.channels)); }
    }
    hide Tail, Solid, ChannelSuffix;
    var r3 := IntStr(c.clock) + suffix;
    SolidThen(IntStr(c.clock), suffix);
    SolidThen("/", r3);
    SolidThen(c.name, "/" + r3);
    SpaceThen(c.name + ("/" + r3));
    SolidThen(IntStr(pt), " " + (c.name + ("/" + r3)));
    TagThen("a=rtpmap:", IntStr(pt) + (" " + (c.name + ("/" + r3))));
  }

  lemma FmtpLineIsLine(pt: int, fmtp: Params)
    requires fmtp != [] && CleanParams(fmtp)
    ensures IsLine(FmtpLine(pt, fmtp))
  {
    forall i | 0 <= i < |fmtp| ensures Pairs(fmtp)[i] != "" && Tail(Pairs(fmtp)[i]) { PairShape(fmtp[i]); }
    LiteralsSolid();
    hide CleanParams, IsLine, IntStr;
    var j := Join(";", Pairs(fmtp));
    JoinTail(";", Pairs(fmtp));
    IntStrSolid(pt);
    hide Tail, Solid, Join, Pairs;
    SpaceThen(j);
    SolidThen(IntStr(pt), " " + j);
    TagThen("a=fmtp:", IntStr(pt) + (" " + j));
  }

  lemma FlagLinesAreLines(s: Section)
    requires s.direction.Some? ==> IsDirection(s.direction.value)
    ensures forall i | 0 <= i < |FlagLines(s)| :: IsLine(FlagLines(s)[i])
  {
    assert IsLine("a=rtcp-mux");
    assert IsLine("a=sendrecv");
    assert IsLine("a=sendonly");
    assert IsLine("a=recvonly");
    assert IsLine("a=inactive");
    hide IsLine;
    assert s.direction == Some("sendrecv") ==> "a=" + s.direction.value == "a=sendrecv";
    assert s.direction == Some("sendonly") ==> "a=" + s.direction.value == "a=sendonly";
    assert s.direction == Some("recvonly") ==> "a=" + s.direction.value == "a=recvonly";
    assert s.direction == Some("inactive") ==> "a=" + s.direction.value == "a=inactive";
  }

  lemma SectionLinesAreLines(s: Section)
    requires CleanSection(s)
    ensures forall i | 0 <= i < |SectionLines(s)| :: IsLine(SectionLines(s)[i])
  {
    hide IsLine;
    MediaLineIsLine(s.media, s.port, s.proto, s.fmts);
    FlagLinesAreLines(s);
    forall i | 0 <= i < |s.rtpmaps| ensures IsLine(RtpmapLines(s.rtpmaps)[i]) {
      RtpmapLineIsLine(s.rtpmaps[i].0, s.rtpmaps[i].1);
    }
    forall i | 0 <= i < |s.fmtps| ensures IsLine(FmtpLines(s.fmtps)[i]) { FmtpLineIsLine(s.fmtps[i].0, s.fmtps[i].1); }
  }

  lemma {:induction false} AllLinesAreLines(secs: seq<Section>)
    requires forall i | 0 <= i < |secs| :: CleanSection(secs[i])
    ensures forall i | 0 <= i < |AllSectionLines(secs)| :: IsLine(AllSectionLines(secs)[i])
    decreases |secs|
  {
    hide IsLine, CleanSection, SectionLines;
    if secs != [] {
      SectionLinesAreLines(secs[0]);
      AllLinesAreLines(secs[1..]);
    }
  }

  lemma TextLineIsLine(c: char, text: string)
    requires CleanText(text) && NotSpace(c)
    ensures IsLine([c, '='] + text)
  {
    assert Solid([c, '=']) && Tail(text);
    TagThen([c, '='], text);
  }

  lemma ConnectionLineIsLine(ip: string)
    requires IsWord(ip)
    ensures IsLine("c=IN IP4 " + ip)
  {
    LiteralsSolid();
    assert Solid(ip);
    SolidThen(ip, "");
    assert ip + "" == ip;
    hide Solid, Tail, IsLine;
    SpaceThen(ip);
    SolidThen("IP4", " " + ip);
    SpaceThen("IP4" + (" " + ip));
    TagThen("c=IN", " " + ("IP4" + (" " + ip)));
    assert "c=IN" + (" " + ("IP4" + (" " + ip))) == "c=IN IP4 " + ip;
  }

  lemma HeaderLinesAreLines(h: Header)
    requires CleanHeader(h)
    ensures forall i | 0 <= i < 5 :: IsLine(HeaderLines(h)[i])
  {
    assert IsLine("v=0");
    hide IsLine;
    TextLineIsLine('o', h.origin);
    TextLineIsLine('s', h.sessionName);
    TextLineIsLine('t', h.timing);
    ConnectionLineIsLine(h.ip);
  }

  // ---------- Printing and parsing are inverse ----------

  lemma {:induction false} NonBlankLines(lines: seq<string>)
    requires forall i | 0 <= i < |lines| :: IsLine(lines[i])
    ensures NonBlank(lines) == lines
    decreases |lines|
  {
    if lines != [] {
      StripTrim(lines[0]);
      hide Strip, IsLine;
      NonBlankLines(lines[1..]);
      assert lines == [lines[0]] + lines[1..];
    }
  }

  lemma JoinTrim(lines: seq<string>)
    requires lines != [] && forall i | 0 <= i < |lines| :: IsLine(lines[i])
    ensures Join(CRLF, lines) != "" && Trim(Join(CRLF, lines))
  {
    hide Join;
    assert IsLine(lines[0]) && IsLine(lines[|lines| - 1]);
    hide IsLine;
    JoinEnds(CRLF, lines);
  }

  lemma CleanLinesOfText(lines: seq<string>)
    requires lines != [] && forall i | 0 <= i < |lines| :: IsLine(lines[i])
    ensures CleanLines(Join(CRLF, lines) + CRLF) == lines
  {
    hide Strip, Join, IsLine, SplitLines, NonBlank, Trim;
    JoinTrim(lines);
    assert All(CRLF, IsSpace);
    hide All, IsSpace;
    StripPad(Join(CRLF, lines), CRLF);
    SplitLinesJoin(lines);
    NonBlankLines(lines);
  }

  /** The parser recovers exactly what was announced, header and every section. */
  lemma ParseRender(h: Header, secs: seq<Section>)
    requires CleanHeader(h)
    requires forall i | 0 <= i < |secs| :: CleanSection(secs[i])
    ensures Parse(Render(h, secs)) == Some(Expected(h, secs))
  {
    hide ParseLines, HeaderLines, CleanHeader, CleanSection, CleanLines, AllSectionLines, IsLine, AnnouncedAll;
    var lines := Lines(h, secs);
    HeaderLinesAreLines(h);
    AllLinesAreLines(secs);
    HeaderCount(h);
    CleanLinesOfText(lines);
    ReadHeader(h);
    var st := State(h.origin, h.sessionName, Some(h.ip), h.timing, [], None, None);
    ParseLinesConcat(INIT, HeaderLines(h), AllSectionLines(secs));
    ReadSections(st, secs);
    assert Closed(st) + AnnouncedAll(secs) == AnnouncedAll(secs);
  }

  lemma HeaderCount(h: Header)
    ensures |HeaderLines(h)| == 5
  {
  }
}
