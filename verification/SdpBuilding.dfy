/** The builders as they run: lines appended one by one, the payload-type iterator consumed step by step. */
module SdpBuilding {
  import opened Text
  import opened PyDict
  import opened SdpModel
  import opened SdpText
  import opened SdpBuilder

  lemma {:induction false} FmtpsAppend(maps: seq<(int, Codec)>, e: (int, Codec))
    ensures Fmtps(maps + [e]) == Fmtps(maps) + if e.1.fmtp == [] then [] else [(e.0, e.1.fmtp)]
    decreases |maps|
  {
    if maps == [] {
      assert maps + [e] == [e] && [e][1..] == [];
    } else {
      assert (maps + [e])[0] == maps[0] && (maps + [e])[1..] == maps[1..] + [e];
      FmtpsAppend(maps[1..], e);
    }
  }

  lemma LinesAppend(maps: seq<(int, Codec)>, fs: seq<(int, Params)>, e: (int, Codec), f: (int, Params))
    ensures RtpmapLines(maps + [e]) == RtpmapLines(maps) + [RtpmapLine(e.0, e.1)]
    ensures FmtpLines(fs + [f]) == FmtpLines(fs) + [FmtpLine(f.0, f.1)]
  {
    hide RtpmapLine, FmtpLine;
  }

  /** `next(dyn_pt_iter)`, twice when the first one is the telephone-event preference. */
  method TakePt(next: nat, pref: int) returns (r: Option<(int, nat)>)
    ensures r == Draw(next, pref)
  {
    r := NextPt(next);
    if r.None? { return; }
    if r.value.0 == pref { r := NextPt(r.value.1); }
  }

  method ChoosePt(c: Codec, pref: int, next: nat) returns (r: Option<(int, nat)>)
    ensures r == AssignPt(c, pref, next)
  {
    if c.staticPt.Some? {
      r := Some((c.staticPt.value, next));
    } else if Lower(c.name) == TELEPHONE_EVENT {
      r := Some((pref, next));
    } else {
      r := TakePt(next, pref);
    }
  }

  method MediaFormats(codecs: seq<Codec>, pref: int)
    returns (ok: bool, fmts: seq<int>, rtpmapLines: seq<string>, fmtpLines: seq<string>)
    ensures ok <==> AssignPts(codecs, pref, 96).Some?
    ensures ok ==> AssignPts(codecs, pref, 96).value == fmts
                   && rtpmapLines == RtpmapLines(Zip(fmts, codecs)) && fmtpLines == FmtpLines(Fmtps(Zip(fmts, codecs)))
  {
    hide AssignPt, RtpmapLine, FmtpLine, RtpmapLines, FmtpLines, Fmtps;
    var next: nat := 96;
    fmts := [];
    rtpmapLines := [];
    fmtpLines := [];
    ghost var maps: seq<(int, Codec)> := [];
    NoLines(maps);
    assert codecs[0..] == codecs;
    PrefixedNothing(AssignPts(codecs, pref, 96));
    for i := 0 to |codecs|
      invariant |fmts| == i && |maps| == i
      invariant forall j | 0 <= j < i :: maps[j] == (fmts[j], codecs[j])
      invariant rtpmapLines == RtpmapLines(maps) && fmtpLines == FmtpLines(Fmtps(maps))
      invariant AssignPts(codecs, pref, 96) == Prefixed(fmts, AssignPts(codecs[i..], pref, next))
    {
      var codec := codecs[i];
      assert codecs[i..][0] == codec && codecs[i..][1..] == codecs[i + 1..];
      var a := ChoosePt(codec, pref, next);
      if a.None? { ok := false; return; }
      var pt := a.value.0;
      next := a.value.1;
      PrefixedCons(fmts, pt, AssignPts(codecs[i + 1..], pref, next));
      fmts := fmts + [pt];
      FmtpsAppend(maps, (pt, codec));
      LinesAppend(maps, Fmtps(maps), (pt, codec), (pt, codec.fmtp));
      assert Fmtps(maps) + [] == Fmtps(maps);
      maps := maps + [(pt, codec)];
      rtpmapLines := rtpmapLines + [RtpmapLine(pt, codec)];
      if codec.fmtp != [] { fmtpLines := fmtpLines + [FmtpLine(pt, codec.fmtp)]; }
    }
    assert codecs[|codecs|..] == [];
    assert fmts + [] == fmts;
    assert maps == Zip(fmts, codecs);
    ok := true;
  }

  lemma NoLines(maps: seq<(int, Codec)>)
    requires maps == []
    ensures RtpmapLines(maps) == [] && FmtpLines(Fmtps(maps)) == []
  {
  }

  method OfferMedia(m: MediaCap) returns (r: Option<seq<string>>)
    ensures r == if OfferSection(m).None? then None else Some(SectionLines(OfferSection(m).value))
  {
    hide AssignPts, RtpmapLines, FmtpLines, MediaLine, Fmtps, Zip;
    var ok, fmts, rtpmapLines, fmtpLines := MediaFormats(m.codecs, m.tePref);
    if !ok { return None; }
    var lines := [MediaLine(m.media, m.port, m.profile, fmts)];
    var flags := ["a=" + m.direction];
    if m.rtcpMux { flags := flags + ["a=rtcp-mux"]; }
    ghost var s := OfferSection(m).value;
    assert flags == FlagLines(s);
    hide FlagLines;
    lines := lines + (flags + rtpmapLines + fmtpLines);
    r := Some(lines);
  }

  /** `SDPBuilder.build_offer`. */
  method BuildOffer(cap: SessionCap, now: int) returns (r: Option<string>)
    ensures r == OfferText(cap, now)
  {
    hide OfferSection, SectionLines, HeaderLines, Join, Capabilities, AllSectionLines;
    var h := SessionHeader(cap, cap.timing, now);
    var lines := HeaderLines(h);
    var caps := Capabilities(cap);
    ghost var done: seq<Section> := [];
    assert caps[0..] == caps;
    PrefixedNothing(OfferSections(caps));
    NoSections(h, done);
    for i := 0 to |caps|
      invariant lines == HeaderLines(h) + AllSectionLines(done)
      invariant OfferSections(caps) == Prefixed(done, OfferSections(caps[i..]))
    {
      assert caps[i..][0] == caps[i] && caps[i..][1..] == caps[i + 1..];
      var more := OfferMedia(caps[i]);
      if more.None? { return None; }
      ghost var s := OfferSection(caps[i]).value;
      LinesGrow(h, done, s);
      PrefixedCons(done, s, OfferSections(caps[i + 1..]));
      lines := lines + more.value;
      done := done + [s];
    }
    assert done + [] == done;
    r := Some(Join(CRLF, lines) + CRLF);
  }

  lemma LinesGrow(h: Header, done: seq<Section>, s: Section)
    ensures HeaderLines(h) + AllSectionLines(done) + SectionLines(s) == HeaderLines(h) + AllSectionLines(done + [s])
  {
    SectionsAppend(done, s);
    hide HeaderLines, AllSectionLines, SectionLines;
    assert HeaderLines(h) + AllSectionLines(done) + SectionLines(s)
      == HeaderLines(h) + (AllSectionLines(done) + SectionLines(s));
  }

  lemma NoSections(h: Header, secs: seq<Section>)
    requires secs == []
    ensures HeaderLines(h) + AllSectionLines(secs) == HeaderLines(h)
  {
    hide HeaderLines;
  }

  lemma {:induction false} SectionsAppend(secs: seq<Section>, s: Section)
    ensures AllSectionLines(secs + [s]) == AllSectionLines(secs) + SectionLines(s)
    decreases |secs|
  {
    hide SectionLines;
    if secs == [] {
      assert secs + [s] == [s] && [s][1..] == [];
      assert SectionLines(s) + [] == SectionLines(s);
    } else {
      assert (secs + [s])[0] == secs[0] && (secs + [s])[1..] == secs[1..] + [s];
      SectionsAppend(secs[1..], s);
    }
  }

  // ---------- The answer ----------

  method ReadRemotes(md: MediaDesc) returns (rs: seq<Remote>)
    ensures rs == Remotes(md, md.fmts)
  {
    hide RemoteOf;
    rs := [];
    for i := 0 to |md.fmts|
      invariant rs + Remotes(md, md.fmts[i..]) == Remotes(md, md.fmts)
    {
      assert md.fmts[i..][0] == md.fmts[i] && md.fmts[i..][1..] == md.fmts[i + 1..];
      ghost var tail := Remotes(md, md.fmts[i + 1..]);
      var r := ReadRemote(md, md.fmts[i]);
      if r.Some? {
        assert rs + ([r.value] + tail) == rs + [r.value] + tail;
        rs := rs + [r.value];
      } else {
        assert [] + tail == tail;
      }
    }
  }

  method ReadRemote(md: MediaDesc, pt: int) returns (r: Option<Remote>)
    ensures r == RemoteOf(md, pt)
  {
    var rm := Get(md.rtpmap, pt);
    if rm.Some? {
      var f := Get(md.fmtp, pt);
      return Some(Remote(pt, rm.value.Key(), if f.Some? then f.value else []));
    }
    var staticMap := map[0 := ("pcmu", 8000, 1), 8 := ("pcma", 8000, 1)];
    if pt in staticMap { return Some(Remote(pt, staticMap[pt], [])); }
    r := None;
  }

  method AnswerTelephoneEvent(rs: seq<Remote>, m: MediaCap) returns (ch: Chosen)
    ensures ch == ChooseTelephoneEvent(rs, m)
  {
    hide LastIndex, Events;
    ch := NOTHING;
    if Supports(m.codecs, TE_KEY) {
      for i := 0 to |rs|
        invariant FirstOf(rs, TE_KEY) == FirstOf(rs[i..], TE_KEY)
      {
        assert rs[i..][0] == rs[i] && rs[i..][1..] == rs[i + 1..];
        if rs[i].key == TE_KEY {
          var c := m.codecs[LastIndex(m.codecs, TE_KEY)];
          var events := Events(c.fmtp, rs[i].fmtp);
          return Chosen([m.tePref], [(m.tePref, c)], [(m.tePref, [("events", events)])]);
        }
      }
    }
  }

  method AnswerCodecs(rs: seq<Remote>, m: MediaCap, start: Chosen) returns (r: Option<Chosen>)
    ensures r == AddAll(start, Selected(rs, m.codecs), m.tePref, 96)
  {
    hide AssignPt, LastIndex;
    var ch := start;
    var next: nat := 96;
    assert rs[0..] == rs;
    for i := 0 to |rs|
      invariant AddAll(start, Selected(rs, m.codecs), m.tePref, 96)
          == AddAll(ch, Selected(rs[i..], m.codecs), m.tePref, next)
    {
      assert rs[i..][0] == rs[i] && rs[i..][1..] == rs[i + 1..];
      ghost var tail := Selected(rs[i + 1..], m.codecs);
      var key := rs[i].key;
      if Supports(m.codecs, key) && key != TE_KEY {
        var lc := m.codecs[LastIndex(m.codecs, key)];
        assert Selected(rs[i..], m.codecs) == [lc] + tail;
        assert ([lc] + tail)[1..] == tail;
        var a := ChoosePt(lc, m.tePref, next);
        if a.None? { return None; }
        var apt := a.value.0;
        next := a.value.1;
        if apt !in ch.fmts {
          ch := Chosen(ch.fmts + [apt], ch.rtpmaps + [(apt, lc)],
                       if lc.fmtp == [] then ch.fmtps else ch.fmtps + [(apt, lc.fmtp)]);
        }
      } else {
        assert Selected(rs[i..], m.codecs) == tail;
      }
    }
    r := Some(ch);
  }

  method AnswerMedia(md: MediaDesc, local: SessionCap) returns (r: Option<seq<string>>)
    ensures r == if AnswerSection(md, local).None? then None else Some(SectionLines(AnswerSection(md, local).value))
  {
    hide Remotes, SortByPreference, ChooseTelephoneEvent, Selected, AddAll, MediaLine, RtpmapLines, FmtpLines,
         AnswerDirection;
    var refusal := [MediaLine(md.media, 0, md.proto, md.fmts)];
    RefusedLines(md);
    var cap := if md.media == "audio" then local.audio else if md.media == "video" then local.video else None;
    if cap.None? { return Some(refusal); }
    var m := cap.value;
    var rs := ReadRemotes(md);
    rs := SortByPreference(rs, m.codecs);
    var te := AnswerTelephoneEvent(rs, m);
    var ch := AnswerCodecs(rs, m, te);
    if ch.None? { return None; }
    if ch.value.fmts == [] { return Some(refusal); }
    var lines := [MediaLine(md.media, m.port, m.profile, ch.value.fmts)];
    var flags := ["a=" + AnswerDirection(md.direction, m.direction)];
    if m.rtcpMux && md.rtcpMux { flags := flags + ["a=rtcp-mux"]; }
    ghost var s := AnswerSection(md, local).value;
    assert flags == FlagLines(s);
    hide FlagLines;
    lines := lines + (flags + RtpmapLines(ch.value.rtpmaps) + FmtpLines(ch.value.fmtps));
    r := Some(lines);
  }

  lemma RefusedLines(md: MediaDesc)
    ensures SectionLines(Refused(md)) == [MediaLine(md.media, 0, md.proto, md.fmts)]
  {
    hide MediaLine;
  }

  /** `SDPBuilder.build_answer`. */
  method BuildAnswer(offer: Parsed, local: SessionCap, now: int) returns (r: Option<string>)
    ensures r == AnswerText(offer, local, now)
  {
    hide AnswerSection, SectionLines, HeaderLines, Join, AllSectionLines;
    var h := SessionHeader(local, offer.timing, now);
    var lines := HeaderLines(h);
    ghost var done: seq<Section> := [];
    assert offer.media[0..] == offer.media;
    PrefixedNothing(AnswerSections(offer.media, local));
    NoSections(h, done);
    for i := 0 to |offer.media|
      invariant lines == HeaderLines(h) + AllSectionLines(done)
      invariant AnswerSections(offer.media, local) == Prefixed(done, AnswerSections(offer.media[i..], local))
    {
      assert offer.media[i..][0] == offer.media[i] && offer.media[i..][1..] == offer.media[i + 1..];
      var more := AnswerMedia(offer.media[i], local);
      if more.None? { return None; }
      ghost var s := AnswerSection(offer.media[i], local).value;
      LinesGrow(h, done, s);
      PrefixedCons(done, s, AnswerSections(offer.media[i + 1..], local));
      lines := lines + more.value;
      done := done + [s];
    }
    assert done + [] == done;
    r := Some(Join(CRLF, lines) + CRLF);
  }
}
