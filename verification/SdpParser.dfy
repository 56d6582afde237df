/** The line-oriented SDP parser: one matcher per regular expression, one state per line. */
module SdpParser {
  import opened Text
  import opened PyDict
  import opened SdpModel

  // ---------- The regular expressions ----------

  predicate IsAlpha(c: char) { 'a' <= c <= 'z' || 'A' <= c <= 'Z' }
  predicate IsProtoChar(c: char) { 'A' <= c <= 'Z' || IsDigit(c) || c == '/' }
  predicate IsEncodingChar(c: char) { IsAlpha(c) || IsDigit(c) || c == '-' || c == '.' || c == '_' }

  /** `[p]+\s+`: the field and what follows the white space. */
  function Field(p: char -> bool, s: string): (r: Option<(string, string)>)
    ensures r.Some? ==> All(r.value.0, p)
  {
    var (f, r) :- Many1(p, s);
    var (_, r) :- Many1(IsSpace, r);
    Some((f, r))
  }

  lemma FieldConcatWs(p: char -> bool, a: string, ws: string, b: string)
    requires a != "" && All(a, p) && ws != "" && All(ws, IsSpace) && !p(ws[0])
    requires b == "" || NotSpace(b[0])
    ensures Field(p, a + (ws + b)) == Some((a, b))
  {
    Many1Concat(p, a, ws + b);
    Many1Concat(IsSpace, ws, b);
  }

  lemma FieldConcat(p: char -> bool, a: string, b: string)
    requires a != "" && All(a, p) && !p(' ')
    requires b == "" || NotSpace(b[0])
    ensures Field(p, a + (" " + b)) == Some((a, b))
  {
    FieldConcatWs(p, a, " ", b);
  }

  /** `m=<media> <port> <proto> <formats>`. */
  function MatchMedia(ln: string): Option<(string, nat, string, string)> {
    var r :- Eat("m=", ln);
    var (media, r) :- Field(IsAlpha, r);
    var (port, r) :- Field(IsDigit, r);
    var (proto, r) :- Field(IsProtoChar, r);
    Some((media, NatVal(port), proto, r))
  }

  /** A literal under IGNORECASE; `lit` is given in lower case. */
  function EatNoCase(lit: string, s: string): Option<string> {
    if |lit| <= |s| && Lower(s[..|lit|]) == lit then Some(s[|lit|..]) else None
  }

  lemma EatNoCaseConcat(lit: string, printed: string, r: string)
    requires Lower(printed) == lit
    ensures EatNoCase(lit, printed + r) == Some(r)
  {
    var s := printed + r;
    assert s[..|lit|] == printed && s[|lit|..] == r;
  }

  /** `c=IN IP4|IP6 <address>`, letter case ignored. */
  function MatchConnection(ln: string): Option<string> {
    var r :- EatNoCase("c=in", ln);
    var (_, r) :- Many1(IsSpace, r);
    var r :- if EatNoCase("ip4", r).Some? then EatNoCase("ip4", r) else EatNoCase("ip6", r);
    var (_, r) :- Many1(IsSpace, r);
    var (addr, r) :- Many1(NotSpace, r);
    if r == "" then Some(addr) else None
  }

  /** `<clock>[/<channels>]` at the end of the line; one channel when none is given. */
  function MatchRate(s: string): Option<(nat, nat)> {
    var (clock, r) :- Many1(IsDigit, s);
    if r == "" then Some((NatVal(clock), 1))
    else
      var r :- Eat("/", r);
      var (ch, r) :- Many1(IsDigit, r);
      if r == "" then Some((NatVal(clock), NatVal(ch))) else None
  }

  /** `a=rtpmap:<pt> <encoding>/<clock>[/<channels>]`. */
  function MatchRtpmap(ln: string): Option<RtpMap> {
    var r :- Eat("a=rtpmap:", ln);
    var (pt, r) :- Field(IsDigit, r);
    var (enc, r) :- Many1(IsEncodingChar, r);
    var r :- Eat("/", r);
    var (clock, channels) :- MatchRate(r);
    Some(RtpMap(NatVal(pt), enc, clock, channels))
  }

  /** `a=fmtp:<pt> <parameters>`. */
  function MatchFmtp(ln: string): Option<(nat, string)> {
    var r :- Eat("a=fmtp:", ln);
    var (pt, r) :- Field(IsDigit, r);
    if r == "" then None else Some((NatVal(pt), r))
  }

  predicate IsDirection(d: string) {
    d == "sendrecv" || d == "sendonly" || d == "recvonly" || d == "inactive"
  }

  function MatchDirection(ln: string): Option<string> {
    var d :- Eat("a=", ln);
    if IsDirection(d) then Some(d) else None
  }

  // ---------- Values inside a line ----------

  /** `[int(x) for x in words]`. */
  function ParseInts(words: seq<string>): Option<seq<int>> {
    if words == [] then Some([])
    else
      var n :- ParseInt(words[0]);
      var ns :- ParseInts(words[1..]);
      Some([n] + ns)
  }

  function AddParam(d: Params, kv: string): Params {
    var t := Strip(kv);
    if t == "" then d
    else
      var i := Find(t, "=");
      if i < 0 then Set(d, t, "") else Set(d, Strip(t[..i]), Strip(t[i + 1..]))
  }

  function AddParams(d: Params, kvs: seq<string>): Params
    decreases |kvs|
  {
    if kvs == [] then d else AddParams(AddParam(d, kvs[0]), kvs[1..])
  }

  function ParseParams(text: string): Params { AddParams([], SplitOn(text, ";")) }

  // ---------- Line by line ----------

  datatype State = State(origin: string, sessionName: string, conn: Option<string>, timing: string,
                         media: seq<MediaDesc>, current: Option<MediaDesc>, sessionDir: Option<string>)

  const INIT := State("", "", None, "", [], None, None)

  function Closed(st: State): seq<MediaDesc> {
    if st.current.Some? then st.media + [st.current.value] else st.media
  }

  function NewMedia(media: string, port: nat, proto: string, fmts: seq<int>): MediaDesc {
    MediaDesc(media, port, proto, fmts, None, None, [], [], false)
  }

  function MediaAttribute(md: MediaDesc, ln: string): MediaDesc {
    var rm := MatchRtpmap(ln);
    if rm.Some? then md.(rtpmap := Set(md.rtpmap, rm.value.pt, rm.value))
    else
      var f := MatchFmtp(ln);
      if f.Some? then md.(fmtp := Set(md.fmtp, f.value.0, ParseParams(f.value.1)))
      else
        var d := MatchDirection(ln);
        if d.Some? then md.(direction := d)
        else if ln == "a=rtcp-mux" then md.(rtcpMux := true)
        else md
  }

  /** `ln.startswith("<c>=")`. */
  predicate Tagged(ln: string, c: char) { |ln| >= 2 && ln[0] == c && ln[1] == '=' }

  function ParseLine(st: State, ln: string): Option<State> {
    if Tagged(ln, 'o') then Some(st.(origin := Strip(ln[2..])))
    else if Tagged(ln, 's') then Some(st.(sessionName := Strip(ln[2..])))
    else if Tagged(ln, 't') then Some(st.(timing := Strip(ln[2..])))
    else if Tagged(ln, 'c') then
      var c := MatchConnection(ln);
      Some(if c.Some? then st.(conn := c) else st)
    else if Tagged(ln, 'm') then
      var m := MatchMedia(ln);
      if m.None? then Some(st)
      else
        var fmts :- ParseInts(SplitWs(m.value.3));
        Some(st.(media := Closed(st), current := Some(NewMedia(m.value.0, m.value.1, m.value.2, fmts))))
    else if Tagged(ln, 'a') && st.current.Some? then
      Some(st.(current := Some(MediaAttribute(st.current.value, ln))))
    else if Tagged(ln, 'a') then
      var d := MatchDirection(ln);
      Some(if d.Some? then st.(sessionDir := d) else st)
    else Some(st)
  }

  function ParseLines(st: State, lines: seq<string>): Option<State>
    decreases |lines|
  {
    if lines == [] then Some(st)
    else
      var st' :- ParseLine(st, lines[0]);
      ParseLines(st', lines[1..])
  }

  /** The stripped non-blank lines of the text. */
  function NonBlank(lines: seq<string>): seq<string> {
    if lines == [] then []
    else
      var l := Strip(lines[0]);
      (if l == "" then [] else [l]) + NonBlank(lines[1..])
  }

  function CleanLines(text: string): seq<string> { NonBlank(SplitLines(Strip(text))) }

  /** Direction and connection a media section ends up with once the session level is known. */
  function Inherit(md: MediaDesc, conn: Option<string>, sessionDir: Option<string>): MediaDesc {
    md.(direction := Some(OrElse(md.direction, OrElse(sessionDir, "sendrecv"))),
        connAddr := if md.connAddr.Some? && md.connAddr.value != "" then md.connAddr else conn)
  }

  function InheritAll(media: seq<MediaDesc>, conn: Option<string>, sessionDir: Option<string>): (r: seq<MediaDesc>)
    ensures |r| == |media|
    ensures forall i | 0 <= i < |r| :: r[i] == Inherit(media[i], conn, sessionDir)
  {
    seq(|media|, i requires 0 <= i < |media| => Inherit(media[i], conn, sessionDir))
  }

  function Finish(st: State): Parsed {
    Parsed(st.origin, st.sessionName, st.conn, if st.timing == "" then "0 0" else st.timing,
           InheritAll(Closed(st), st.conn, st.sessionDir))
  }

  /** `SDPParser.parse`; None stands for the ValueError of a format that is not a number. */
  function Parse(text: string): Option<Parsed> {
    var st :- ParseLines(INIT, CleanLines(text));
    Some(Finish(st))
  }

  lemma {:induction false} ParseLinesConcat(st: State, a: seq<string>, b: seq<string>)
    ensures ParseLines(st, a + b) ==
            if ParseLines(st, a).None? then None else ParseLines(ParseLines(st, a).value, b)
    decreases |a|
  {
    if a == [] {
      assert a + b == b;
    } else {
      assert (a + b)[0] == a[0] && (a + b)[1..] == a[1..] + b;
      var st' := ParseLine(st, a[0]);
      if st'.Some? { ParseLinesConcat(st'.value, a[1..], b); }
    }
  }

  // ---------- The parser as it runs ----------

  method ReadFormats(text: string) returns (r: Option<seq<int>>)
    ensures r == ParseInts(SplitWs(text))
  {
    hide ParseInt, SplitWs;
    var words := SplitWs(text);
    var fmts: seq<int> := [];
    assert words[0..] == words;
    PrefixedNothing(ParseInts(words));
    for i := 0 to |words|
      invariant ParseInts(words) == Prefixed(fmts, ParseInts(words[i..]))
    {
      assert words[i..][0] == words[i] && words[i..][1..] == words[i + 1..];
      var n := ParseInt(words[i]);
      if n.None? { return None; }
      PrefixedCons(fmts, n.value, ParseInts(words[i + 1..]));
      fmts := fmts + [n.value];
    }
    assert fmts + [] == fmts;
    r := Some(fmts);
  }

  method ReadParams(text: string) returns (kvs: Params)
    ensures kvs == ParseParams(text)
  {
    kvs := [];
    var parts := SplitOn(text, ";");
    for i := 0 to |parts|
      invariant AddParams(kvs, parts[i..]) == ParseParams(text)
    {
      assert parts[i..][0] == parts[i] && parts[i..][1..] == parts[i + 1..];
      var kv := Strip(parts[i]);
      if kv != "" {
        var e := Find(kv, "=");
        if e >= 0 {
          kvs := Set(kvs, Strip(kv[..e]), Strip(kv[e + 1..]));
        } else {
          kvs := Set(kvs, kv, "");
        }
      }
    }
  }

  method ReadAttribute(md: MediaDesc, ln: string) returns (r: MediaDesc)
    ensures r == MediaAttribute(md, ln)
  {
    r := md;
    var rm := MatchRtpmap(ln);
    if rm.Some? {
      r := r.(rtpmap := Set(r.rtpmap, rm.value.pt, rm.value));
      return;
    }
    var f := MatchFmtp(ln);
    if f.Some? {
      var kvs := ReadParams(f.value.1);
      r := r.(fmtp := Set(r.fmtp, f.value.0, kvs));
      return;
    }
    var d := MatchDirection(ln);
    if d.Some? {
      r := r.(direction := d);
      return;
    }
    if ln == "a=rtcp-mux" { r := r.(rtcpMux := true); }
  }

  method ReadLines(text: string) returns (lines: seq<string>)
    ensures lines == CleanLines(text)
  {
    hide Strip, SplitLines;
    lines := [];
    var raw := SplitLines(Strip(text));
    for i := 0 to |raw|
      invariant lines + NonBlank(raw[i..]) == NonBlank(raw)
    {
      assert raw[i..][0] == raw[i] && raw[i..][1..] == raw[i + 1..];
      var l := Strip(raw[i]);
      ghost var tail := NonBlank(raw[i + 1..]);
      if l != "" {
        assert lines + ([l] + tail) == lines + [l] + tail;
        lines := lines + [l];
      } else {
        assert [] + tail == tail;
      }
    }
  }

  method SettleMedia(media: seq<MediaDesc>, conn: Option<string>,
                     sessionDir: Option<string>) returns (done: seq<MediaDesc>)
    ensures done == InheritAll(media, conn, sessionDir)
  {
    done := [];
    for i := 0 to |media|
      invariant |done| == i && forall j | 0 <= j < i :: done[j] == Inherit(media[j], conn, sessionDir)
    {
      done := done + [Inherit(media[i], conn, sessionDir)];
    }
  }

  method ParseText(text: string) returns (r: Option<Parsed>)
    ensures r == Parse(text)
  {
    var lines := ReadLines(text);
    var origin, sessionName, timing := "", "", "";
    var conn: Option<string> := None;
    var media: seq<MediaDesc> := [];
    var current: Option<MediaDesc> := None;
    var sessionDir: Option<string> := None;
    for i := 0 to |lines|
      invariant ParseLines(INIT, lines) ==
                ParseLines(State(origin, sessionName, conn, timing, media, current, sessionDir), lines[i..])
    {
      var ln := lines[i];
      assert lines[i..][0] == ln && lines[i..][1..] == lines[i + 1..];
      ghost var st := State(origin, sessionName, conn, timing, media, current, sessionDir);
      if Tagged(ln, 'o') {
        origin := Strip(ln[2..]);
      } else if Tagged(ln, 's') {
        sessionName := Strip(ln[2..]);
      } else if Tagged(ln, 't') {
        timing := Strip(ln[2..]);
      } else if Tagged(ln, 'c') {
        var c := MatchConnection(ln);
        if c.Some? { conn := c; }
      } else if Tagged(ln, 'm') {
        var m := MatchMedia(ln);
        if m.Some? {
          var fmts := ReadFormats(m.value.3);
          if fmts.None? { return None; }
          if current.Some? { media := media + [current.value]; }
          current := Some(NewMedia(m.value.0, m.value.1, m.value.2, fmts.value));
        }
      } else if Tagged(ln, 'a') && current.Some? {
        var md := ReadAttribute(current.value, ln);
        current := Some(md);
      } else if Tagged(ln, 'a') {
        var d := MatchDirection(ln);
        if d.Some? { sessionDir := d; }
      }
      assert ParseLine(st, ln) == Some(State(origin, sessionName, conn, timing, media, current, sessionDir));
    }
    if current.Some? { media := media + [current.value]; }
    media := SettleMedia(media, conn, sessionDir);
    r := Some(Parsed(origin, sessionName, conn, if timing == "" then "0 0" else timing, media));
  }
}
