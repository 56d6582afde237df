/** Building offers and answers: payload-type allocation, codec intersection and preference order. */
module SdpBuilder {
  import opened Text
  import opened PyDict
  import opened SdpModel
  import opened SdpText

  // ---------- The pool of dynamic payload types ----------

  /** `next()` on the iterator over 96..127; the state is the next number it would yield. */
  function NextPt(next: nat): Option<(int, nat)> {
    if next < 128 then Some((next, next + 1)) else None
  }

  /** One draw, stepping once over the telephone-event preference; None is the StopIteration. */
  function Draw(next: nat, pref: int): Option<(int, nat)> {
    var (pt, n) :- NextPt(next);
    if pt == pref then NextPt(n) else Some((pt, n))
  }

  /** The payload type given to one codec and the pool afterwards. */
  function AssignPt(c: Codec, pref: int, next: nat): Option<(int, nat)> {
    if c.staticPt.Some? then Some((c.staticPt.value, next))
    else if c.IsTelephoneEvent() then Some((pref, next))
    else Draw(next, pref)
  }

  function AssignPts(codecs: seq<Codec>, pref: int, next: nat): (r: Option<seq<int>>)
    ensures r.Some? ==> |r.value| == |codecs|
    decreases |codecs|
  {
    if codecs == [] then Some([])
    else
      var (pt, n) :- AssignPt(codecs[0], pref, next);
      var pts :- AssignPts(codecs[1..], pref, n);
      Some([pt] + pts)
  }

  function Zip(pts: seq<int>, codecs: seq<Codec>): (r: seq<(int, Codec)>)
    requires |pts| == |codecs|
    ensures |r| == |pts| && forall i | 0 <= i < |pts| :: r[i] == (pts[i], codecs[i])
  {
    seq(|pts|, i requires 0 <= i < |pts| => (pts[i], codecs[i]))
  }

  /** Parameters are announced only for codecs that have some. */
  function Fmtps(maps: seq<(int, Codec)>): seq<(int, Params)> {
    if maps == [] then []
    else (if maps[0].1.fmtp == [] then [] else [(maps[0].0, maps[0].1.fmtp)]) + Fmtps(maps[1..])
  }

  // ---------- The offer ----------

  function Origin(user: string, ip: string, version: int, now: int): string {
    user + (" " + (IntStr(now) + (" " + (IntStr(version) + (" " + ("IN" + (" " + ("IP4" + (" " + ip)))))))))
  }

  function SessionHeader(cap: SessionCap, timing: string, now: int): Header {
    Header(Origin(cap.originUser, cap.ip, cap.version, now), cap.sessionName, cap.ip, timing)
  }

  function OfferSection(m: MediaCap): Option<Section> {
    var pts :- AssignPts(m.codecs, m.tePref, 96);
    Some(Section(m.media, m.port, m.profile, pts, Some(m.direction), m.rtcpMux,
                 Zip(pts, m.codecs), Fmtps(Zip(pts, m.codecs))))
  }

  function Capabilities(cap: SessionCap): seq<MediaCap> {
    (if cap.audio.Some? then [cap.audio.value] else []) + (if cap.video.Some? then [cap.video.value] else [])
  }

  function OfferSections(caps: seq<MediaCap>): Option<seq<Section>> {
    if caps == [] then Some([])
    else
      var s :- OfferSection(caps[0]);
      var rest :- OfferSections(caps[1..]);
      Some([s] + rest)
  }

  /** `SDPBuilder.build_offer` at clock reading `now`. */
  function OfferText(cap: SessionCap, now: int): Option<string> {
    var secs :- OfferSections(Capabilities(cap));
    Some(Render(SessionHeader(cap, cap.timing, now), secs))
  }

  // ---------- The answer ----------

  /** Position a dictionary keyed by codec ends up with: the last codec of that key, or -1. */
  function LastIndex(codecs: seq<Codec>, key: CodecKey): (i: int)
    ensures -1 <= i < |codecs|
    ensures i >= 0 ==> codecs[i].Key() == key
    ensures forall j | i < j < |codecs| :: codecs[j].Key() != key
  {
    if codecs == [] then -1
    else if codecs[|codecs| - 1].Key() == key then |codecs| - 1
    else LastIndex(codecs[..|codecs| - 1], key)
  }

  predicate Supports(codecs: seq<Codec>, key: CodecKey) { LastIndex(codecs, key) >= 0 }

  function LocalRank(codecs: seq<Codec>, key: CodecKey): int {
    if Supports(codecs, key) then LastIndex(codecs, key) else 9999
  }

  datatype Remote = Remote(pt: int, key: CodecKey, fmtp: Params)

  /** What an offered payload type stands for: its rtpmap, or one of the two known static types. */
  function RemoteOf(md: MediaDesc, pt: int): Option<Remote> {
    var rm := Get(md.rtpmap, pt);
    if rm.Some? then
      var f := Get(md.fmtp, pt);
      Some(Remote(pt, rm.value.Key(), if f.Some? then f.value else []))
    else if pt == 0 then Some(Remote(pt, ("pcmu", 8000, 1), []))
    else if pt == 8 then Some(Remote(pt, ("pcma", 8000, 1), []))
    else None
  }

  function Remotes(md: MediaDesc, fmts: seq<int>): seq<Remote> {
    if fmts == [] then []
    else
      var r := RemoteOf(md, fmts[0]);
      (if r.Some? then [r.value] else []) + Remotes(md, fmts[1..])
  }

  function Insert(r: Remote, rs: seq<Remote>, codecs: seq<Codec>): seq<Remote> {
    if rs == [] || LocalRank(codecs, r.key) <= LocalRank(codecs, rs[0].key) then [r] + rs
    else [rs[0]] + Insert(r, rs[1..], codecs)
  }

  /** `list.sort` by local preference: stable. */
  function SortByPreference(rs: seq<Remote>, codecs: seq<Codec>): seq<Remote> {
    if rs == [] then [] else Insert(rs[0], SortByPreference(rs[1..], codecs), codecs)
  }

  function AnswerDirection(offered: Option<string>, local: string): string {
    var d := OrElse(offered, "sendrecv");
    if d == "sendonly" then "recvonly"
    else if d == "recvonly" then "sendonly"
    else if d == "inactive" then "inactive"
    else if local == "" then "sendrecv" else local
  }

  /** The formats an answer advertises so far. */
  datatype Chosen = Chosen(fmts: seq<int>, rtpmaps: seq<(int, Codec)>, fmtps: seq<(int, Params)>)

  const NOTHING := Chosen([], [], [])

  /** The first offered entry of a given key. */
  function FirstOf(rs: seq<Remote>, key: CodecKey): Option<Remote> {
    if rs == [] then None else if rs[0].key == key then Some(rs[0]) else FirstOf(rs[1..], key)
  }

  function Events(local: Params, remote: Params): string {
    OrElse(Get(local, "events"), OrElse(Get(remote, "events"), "0-16"))
  }

  function ChooseTelephoneEvent(rs: seq<Remote>, m: MediaCap): Chosen {
    var r := FirstOf(rs, TE_KEY);
    if Supports(m.codecs, TE_KEY) && r.Some? then
      var c := m.codecs[LastIndex(m.codecs, TE_KEY)];
      Chosen([m.tePref], [(m.tePref, c)], [(m.tePref, [("events", Events(c.fmtp, r.value.fmtp))])])
    else NOTHING
  }

  /** The local codecs the other entries select, in their order. */
  function Selected(rs: seq<Remote>, codecs: seq<Codec>): seq<Codec> {
    if rs == [] then []
    else
      (if Supports(codecs, rs[0].key) && rs[0].key != TE_KEY then [codecs[LastIndex(codecs, rs[0].key)]] else [])
      + Selected(rs[1..], codecs)
  }

  function Add(ch: Chosen, pt: int, c: Codec): Chosen {
    if pt in ch.fmts then ch
    else Chosen(ch.fmts + [pt], ch.rtpmaps + [(pt, c)], if c.fmtp == [] then ch.fmtps else ch.fmtps + [(pt, c.fmtp)])
  }

  function AddAll(ch: Chosen, cs: seq<Codec>, pref: int, next: nat): Option<Chosen>
    decreases |cs|
  {
    if cs == [] then Some(ch)
    else
      var (pt, n) :- AssignPt(cs[0], pref, next);
      AddAll(Add(ch, pt, cs[0]), cs[1..], pref, n)
  }

  function Choose(md: MediaDesc, m: MediaCap): Option<Chosen> {
    var rs := SortByPreference(Remotes(md, md.fmts), m.codecs);
    AddAll(ChooseTelephoneEvent(rs, m), Selected(rs, m.codecs), m.tePref, 96)
  }

  function Refused(md: MediaDesc): Section {
    Section(md.media, 0, md.proto, md.fmts, None, false, [], [])
  }

  function LocalMedia(local: SessionCap, media: string): Option<MediaCap> {
    if media == "audio" then local.audio else if media == "video" then local.video else None
  }

  function AnswerSection(md: MediaDesc, local: SessionCap): Option<Section> {
    var cap := LocalMedia(local, md.media);
    if cap.None? then Some(Refused(md))
    else
      var m := cap.value;
      var ch :- Choose(md, m);
      if ch.fmts == [] then Some(Refused(md))
      else Some(Section(md.media, m.port, m.profile, ch.fmts, Some(AnswerDirection(md.direction, m.direction)),
                        m.rtcpMux && md.rtcpMux, ch.rtpmaps, ch.fmtps))
  }

  function AnswerSections(media: seq<MediaDesc>, local: SessionCap): (r: Option<seq<Section>>)
    ensures r.Some? ==> |r.value| == |media|
  {
    if media == [] then Some([])
    else
      var s :- AnswerSection(media[0], local);
      var rest :- AnswerSections(media[1..], local);
      Some([s] + rest)
  }

  /** `SDPBuilder.build_answer` at clock reading `now`. */
  function AnswerText(offer: Parsed, local: SessionCap, now: int): Option<string> {
    var secs :- AnswerSections(offer.media, local);
    Some(Render(SessionHeader(local, offer.timing, now), secs))
  }
}
