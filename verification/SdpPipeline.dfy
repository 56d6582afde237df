/**
 The whole offer/answer exchange as text: offer, parse, answer, parse, negotiate. Two
 well-formed parties end up with exactly their common codecs.
 */
module SdpPipeline {
  import opened Text
  import opened PyDict
  import opened SdpModel
  import opened SdpParser
  import opened SdpText
  import opened SdpBuilder
  import opened SdpAllocation
  import opened SdpAnswer
  import opened SdpNegotiation

  // ---------- Well-formed capabilities ----------

  ghost predicate DistinctCodecs(codecs: seq<Codec>) {
    forall i, j | 0 <= i < j < |codecs| :: codecs[i].Key() != codecs[j].Key()
  }

  ghost predicate WellFormedMedia(m: MediaCap) {
    && m.codecs != [] && DistinctCodecs(m.codecs) && CompatiblePts(m.codecs, m.tePref)
    && (forall i | 0 <= i < |m.codecs| :: CleanCodec(m.codecs[i]) && CleanParams(m.codecs[i].fmtp))
    && AssignPts(m.codecs, m.tePref, 96).Some?
    && IsDirection(m.direction) && m.port > 0
    && m.profile != "" && All(m.profile, IsProtoChar)
  }

  ghost predicate WellFormed(cap: SessionCap) {
    && IsWord(cap.originUser) && IsWord(cap.ip) && CleanText(cap.sessionName) && CleanText(cap.timing)
    && (cap.audio.Some? ==> cap.audio.value.media == "audio" && WellFormedMedia(cap.audio.value))
    && (cap.video.Some? ==> cap.video.value.media == "video" && WellFormedMedia(cap.video.value))
  }

  // ---------- Offers print cleanly ----------

  lemma WordThen(w: string, rest: string)
    requires Solid(w) && w != "" && Tail(rest) && rest != ""
    ensures Tail(w + (" " + rest)) && w + (" " + rest) != ""
  {
    SpaceThen(rest);
    hide Tail, Solid;
    SolidThen(w, " " + rest);
  }

  lemma OriginClean(user: string, ip: string, version: int, now: int)
    requires IsWord(user) && IsWord(ip)
    ensures CleanText(Origin(user, ip, version, now))
  {
    assert Solid(user) && Solid(ip) && Solid("IN") && Solid("IP4");
    assert Tail(ip);
    IntStrSolid(now);
    IntStrSolid(version);
    var o := Origin(user, ip, version, now);
    assert Tail(o) by {
      hide IntStr, Tail, Solid, IsWord;
      WordThen("IP4", ip);
      WordThen("IN", "IP4" + (" " + ip));
      WordThen(IntStr(version), "IN" + (" " + ("IP4" + (" " + ip))));
      WordThen(IntStr(now), IntStr(version) + (" " + ("IN" + (" " + ("IP4" + (" " + ip))))));
      WordThen(user, IntStr(now) + (" " + (IntStr(version) + (" " + ("IN" + (" " + ("IP4" + (" " + ip))))))));
    }
    hide IntStr;
    assert o[0] == user[0];
  }

  lemma HeaderClean(cap: SessionCap, timing: string, now: int)
    requires IsWord(cap.originUser) && IsWord(cap.ip) && CleanText(cap.sessionName) && CleanText(timing)
    ensures CleanHeader(SessionHeader(cap, timing, now))
  {
    OriginClean(cap.originUser, cap.ip, cap.version, now);
    hide CleanText, IsWord, Origin;
  }

  ghost predicate ParamsOfSome(p: (int, Params), maps: seq<(int, Codec)>) {
    exists j | 0 <= j < |maps| :: p == (maps[j].0, maps[j].1.fmtp) && maps[j].1.fmtp != []
  }

  lemma {:induction false} FmtpsFrom(maps: seq<(int, Codec)>)
    ensures forall p | p in Fmtps(maps) :: ParamsOfSome(p, maps)
    decreases |maps|
  {
    if maps != [] {
      FmtpsFrom(maps[1..]);
      forall p | p in Fmtps(maps) ensures ParamsOfSome(p, maps) {
        if p in Fmtps(maps[1..]) {
          var j :| 0 <= j < |maps[1..]| && p == (maps[1..][j].0, maps[1..][j].1.fmtp) && maps[1..][j].1.fmtp != [];
          assert maps[j + 1] == maps[1..][j];
        }
      }
    }
  }

  lemma TailKeys(maps: seq<(int, Codec)>)
    requires maps != [] && DistinctKeys(maps)
    ensures DistinctKeys(maps[1..])
    ensures forall p | p in Fmtps(maps[1..]) :: p.0 != maps[0].0
  {
    forall a, b | 0 <= a < b < |maps[1..]| ensures maps[1..][a].0 != maps[1..][b].0 {
      assert maps[a + 1].0 != maps[b + 1].0;
    }
    FmtpsFrom(maps[1..]);
    forall p | p in Fmtps(maps[1..]) ensures p.0 != maps[0].0 {
      var j :| 0 <= j < |maps[1..]| && p == (maps[1..][j].0, maps[1..][j].1.fmtp) && maps[1..][j].1.fmtp != [];
      assert maps[1..][j] == maps[j + 1];
    }
  }

  lemma {:induction false} FmtpsDistinct(maps: seq<(int, Codec)>)
    requires DistinctKeys(maps)
    ensures DistinctKeys(Fmtps(maps))
    decreases |maps|
  {
    if maps != [] {
      TailKeys(maps);
      FmtpsDistinct(maps[1..]);
    }
  }

  /** The parameters announced for a payload type are those of its codec. */
  lemma {:induction false} FmtpsGet(maps: seq<(int, Codec)>, i: nat)
    requires DistinctKeys(maps) && i < |maps|
    ensures Get(Fmtps(maps), maps[i].0) == if maps[i].1.fmtp == [] then None else Some(maps[i].1.fmtp)
    decreases |maps|
  {
    var rest := Fmtps(maps[1..]);
    TailKeys(maps);
    assert maps[0].1.fmtp == [] ==> Fmtps(maps) == rest;
    assert maps[0].1.fmtp != [] ==> Fmtps(maps)[1..] == rest;
    if i > 0 {
      assert maps[0].0 != maps[i].0;
      FmtpsGet(maps[1..], i - 1);
      assert maps[1..][i - 1] == maps[i];
    } else if maps[0].1.fmtp == [] {
      GetMissing(rest, maps[0].0);
    }
  }

  lemma MapsClean(maps: seq<(int, Codec)>)
    requires DistinctKeys(maps)
    requires forall i | 0 <= i < |maps| :: maps[i].0 >= 0 && CleanCodec(maps[i].1) && CleanParams(maps[i].1.fmtp)
    ensures DistinctKeys(Fmtps(maps))
    ensures forall i | 0 <= i < |Fmtps(maps)| ::
        Fmtps(maps)[i].0 >= 0 && Fmtps(maps)[i].1 != [] && CleanParams(Fmtps(maps)[i].1)
  {
    hide Fmtps, CleanCodec, CleanParams, DistinctKeys;
    FmtpsDistinct(maps);
    FmtpsFrom(maps);
    forall i | 0 <= i < |Fmtps(maps)|
      ensures Fmtps(maps)[i].0 >= 0 && Fmtps(maps)[i].1 != [] && CleanParams(Fmtps(maps)[i].1)
    {
      assert Fmtps(maps)[i] in Fmtps(maps);
    }
  }

  lemma ZipDistinct(pts: seq<int>, codecs: seq<Codec>)
    requires |pts| == |codecs| && Distinct(pts)
    ensures DistinctKeys(Zip(pts, codecs))
  {
  }

  lemma MediaName(media: string)
    requires media == "audio" || media == "video"
    ensures media != "" && All(media, IsAlpha)
  {
  }

  lemma OfferSectionClean(m: MediaCap)
    requires WellFormedMedia(m) && (m.media == "audio" || m.media == "video")
    ensures OfferSection(m).Some? && CleanSection(OfferSection(m).value)
    ensures DistinctKeys(OfferSection(m).value.rtpmaps)
  {
    var pts := AssignPts(m.codecs, m.tePref, 96).value;
    MediaName(m.media);
    hide AssignPts, IsAlpha, IsProtoChar, CleanCodec, CleanParams, IsDirection;
    AllocatedDistinct(m.codecs, m.tePref);
    hide CompatiblePts, All;
    ZipDistinct(pts, m.codecs);
    MapsClean(Zip(pts, m.codecs));
  }

  lemma CapabilitiesWellFormed(cap: SessionCap)
    requires WellFormed(cap)
    ensures forall i | 0 <= i < |Capabilities(cap)| ::
              var m := Capabilities(cap)[i]; WellFormedMedia(m) && (m.media == "audio" || m.media == "video")
  {
    hide WellFormedMedia;
  }

  lemma {:induction false} OfferSectionsClean(caps: seq<MediaCap>)
    requires forall i | 0 <= i < |caps| ::
        WellFormedMedia(caps[i]) && (caps[i].media == "audio" || caps[i].media == "video")
    ensures OfferSections(caps).Some? && |OfferSections(caps).value| == |caps|
    ensures forall i | 0 <= i < |caps| ::
        OfferSection(caps[i]) == Some(OfferSections(caps).value[i]) && CleanSection(OfferSections(caps).value[i])
    decreases |caps|
  {
    hide WellFormedMedia, OfferSection, CleanSection;
    if caps != [] {
      OfferSectionClean(caps[0]);
      OfferSectionsClean(caps[1..]);
    }
  }

  /** A capability as the other side should read it from the offer. */
  function Offered(m: MediaCap, pts: seq<int>, ip: string): MediaDesc
    requires |pts| == |m.codecs|
  {
    MediaDesc(m.media, m.port, m.profile, pts, Some(ip), Some(m.direction),
              RtpEntries(Zip(pts, m.codecs)), Fmtps(Zip(pts, m.codecs)), m.rtcpMux)
  }

  ghost predicate OfferReadBack(cap: SessionCap, p: Parsed) {
    && p.sessionName == cap.sessionName && p.connection == Some(cap.ip)
    && p.timing == (if cap.timing == "" then "0 0" else cap.timing)
    && |p.media| == |Capabilities(cap)|
    && forall i | 0 <= i < |p.media| :: LineReadBack(Capabilities(cap)[i], cap.ip, p.media[i])
  }

  ghost predicate LineReadBack(m: MediaCap, ip: string, md: MediaDesc) {
    var pts := AssignPts(m.codecs, m.tePref, 96);
    pts.Some? && md == Offered(m, pts.value, ip)
  }

  lemma OfferParses(cap: SessionCap, now: int)
    requires WellFormed(cap)
    ensures OfferSections(Capabilities(cap)).Some?
    ensures OfferText(cap, now).Some?
    ensures Parse(OfferText(cap, now).value) ==
            Some(Expected(SessionHeader(cap, cap.timing, now), OfferSections(Capabilities(cap)).value))
  {
    CapabilitiesWellFormed(cap);
    hide WellFormedMedia, CleanSection, Parse, Render, CleanHeader, OfferSections, Expected, SessionHeader,
         Capabilities;
    OfferSectionsClean(Capabilities(cap));
    HeaderClean(cap, cap.timing, now);
    ParseRender(SessionHeader(cap, cap.timing, now), OfferSections(Capabilities(cap)).value);
  }

  lemma ReadBackLine(cap: SessionCap, now: int, i: nat)
    requires WellFormed(cap) && i < |Capabilities(cap)|
    ensures OfferSections(Capabilities(cap)).Some?
    ensures |OfferSections(Capabilities(cap)).value| == |Capabilities(cap)|
    ensures LineReadBack(Capabilities(cap)[i], cap.ip,
              Expected(SessionHeader(cap, cap.timing, now), OfferSections(Capabilities(cap)).value).media[i])
  {
    CapabilitiesWellFormed(cap);
    hide WellFormedMedia, CleanSection, OfferSections, AssignPts, Origin, Offered, OfferSection, Capabilities,
         Announced, Inherit;
    OfferSectionsClean(Capabilities(cap));
    DirectionKept(Capabilities(cap)[i], OfferSections(Capabilities(cap)).value[i], cap.ip);
  }

  /** Parsing a built offer recovers every announced field of every media line. */
  lemma OfferRoundTrip(cap: SessionCap, now: int)
    requires WellFormed(cap)
    ensures OfferText(cap, now).Some?
    ensures Parse(OfferText(cap, now).value).Some?
    ensures OfferReadBack(cap, Parse(OfferText(cap, now).value).value)
    ensures Parse(OfferText(cap, now).value).value.origin == Origin(cap.originUser, cap.ip, cap.version, now)
  {
    CapabilitiesWellFormed(cap);
    hide WellFormed, WellFormedMedia, CleanSection, Parse, OfferText, OfferSections, Origin, OfferSection, Capabilities,
         Announced, Inherit, LineReadBack;
    OfferParses(cap, now);
    OfferSectionsClean(Capabilities(cap));
    var p := Expected(SessionHeader(cap, cap.timing, now), OfferSections(Capabilities(cap)).value);
    forall i | 0 <= i < |Capabilities(cap)| ensures LineReadBack(Capabilities(cap)[i], cap.ip, p.media[i]) {
      ReadBackLine(cap, now, i);
    }
  }

  lemma DirectionKept(m: MediaCap, s: Section, ip: string)
    requires WellFormedMedia(m) && OfferSection(m) == Some(s)
    ensures AssignPts(m.codecs, m.tePref, 96).Some?
    ensures Inherit(Announced(s), Some(ip), None) == Offered(m, AssignPts(m.codecs, m.tePref, 96).value, ip)
  {
    assert m.direction != "";
    hide AssignPts, WellFormedMedia, Fmtps, RtpEntries, Zip;
  }

  // ---------- What the answerer sees ----------

  lemma OneRemote(m: MediaCap, pts: seq<int>, ip: string, k: nat)
    requires |pts| == |m.codecs| && Distinct(pts) && k < |pts|
    ensures RemoteOf(Offered(m, pts, ip), pts[k]) == Some(Remote(pts[k], m.codecs[k].Key(), m.codecs[k].fmtp))
  {
    var maps := Zip(pts, m.codecs);
    var es := RtpEntries(maps);
    assert DistinctKeys(es)
      && es[k] == (pts[k], RtpMap(pts[k], m.codecs[k].name, m.codecs[k].clock, m.codecs[k].channels));
    assert DistinctKeys(maps) && maps[k] == (pts[k], m.codecs[k]);
    hide Fmtps, Get, RtpEntries, Zip;
    GetAt(es, k);
    FmtpsGet(maps, k);
  }

  /** The offered codecs, read back by the answerer. */
  lemma {:induction false} RemotesOfOffer(m: MediaCap, pts: seq<int>, ip: string, k: nat)
    requires |pts| == |m.codecs| && Distinct(pts) && k <= |pts|
    ensures var rs := Remotes(Offered(m, pts, ip), pts[k..]);
            |rs| == |pts| - k && forall i | 0 <= i < |rs| ::
              rs[i] == Remote(pts[k + i], m.codecs[k + i].Key(), m.codecs[k + i].fmtp)
    decreases |pts| - k
  {
    hide RemoteOf, Offered;
    if k < |pts| {
      RemotesOfOffer(m, pts, ip, k + 1);
      assert pts[k..][0] == pts[k] && pts[k..][1..] == pts[k + 1..];
      OneRemote(m, pts, ip, k);
    }
  }

  ghost predicate DistinctRemotes(rs: seq<Remote>) {
    forall i, j | 0 <= i < j < |rs| :: rs[i].key != rs[j].key
  }

  lemma {:induction false} InsertDistinct(r: Remote, rs: seq<Remote>, codecs: seq<Codec>)
    requires DistinctRemotes(rs) && forall i | 0 <= i < |rs| :: rs[i].key != r.key
    ensures DistinctRemotes(Insert(r, rs, codecs))
    ensures forall i | 0 <= i < |Insert(r, rs, codecs)| ::
        Insert(r, rs, codecs)[i] == r || Insert(r, rs, codecs)[i] in rs
    decreases |rs|
  {
    hide LocalRank;
    if rs != [] && LocalRank(codecs, r.key) > LocalRank(codecs, rs[0].key) {
      var t := Insert(r, rs[1..], codecs);
      InsertDistinct(r, rs[1..], codecs);
      forall j | 0 <= j < |t| ensures t[j].key != rs[0].key {
        if t[j] != r {
          var k :| 0 <= k < |rs[1..]| && rs[1..][k] == t[j];
          assert rs[k + 1] == t[j];
        }
      }
    }
  }

  lemma {:induction false} SortDistinct(rs: seq<Remote>, codecs: seq<Codec>)
    requires DistinctRemotes(rs)
    ensures DistinctRemotes(SortByPreference(rs, codecs))
    decreases |rs|
  {
    hide LocalRank;
    if rs != [] {
      var t := SortByPreference(rs[1..], codecs);
      SortDistinct(rs[1..], codecs);
      PreferenceSort(rs[1..], codecs);
      forall i | 0 <= i < |t| ensures t[i].key != rs[0].key {
        assert t[i] in t;
        var k :| 0 <= k < |rs[1..]| && rs[1..][k] == t[i];
        assert rs[k + 1] == t[i];
      }
      InsertDistinct(rs[0], t, codecs);
    }
  }

  // ---------- The selection, declaratively ----------

  predicate Wanted(c: Codec, keys: set<CodecKey>) { c.Key() in keys && c.Key() != TE_KEY }

  /** The codecs whose key is in `keys`, telephone-event/8000 aside, in their own order. */
  function Common(codecs: seq<Codec>, keys: set<CodecKey>): seq<Codec> {
    if codecs == [] then []
    else
      var n := |codecs| - 1;
      var t := Common(codecs[..n], keys);
      if Wanted(codecs[n], keys) then t + [codecs[n]] else t
  }

  lemma {:induction false} CommonMembers(codecs: seq<Codec>, keys: set<CodecKey>)
    ensures forall c :: c in Common(codecs, keys) <==> c in codecs && Wanted(c, keys)
    decreases |codecs|
  {
    hide Wanted;
    if codecs != [] {
      var n := |codecs| - 1;
      CommonMembers(codecs[..n], keys);
      assert codecs == codecs[..n] + [codecs[n]];
    }
  }

  /** `cs` is the part of `codecs` at the increasing positions `idx`. */
  ghost predicate Picks(codecs: seq<Codec>, idx: seq<nat>, cs: seq<Codec>) {
    && |idx| == |cs|
    && (forall i | 0 <= i < |idx| :: idx[i] < |codecs| && cs[i] == codecs[idx[i]])
    && (forall i, j | 0 <= i < j < |idx| :: idx[i] < idx[j])
  }

  lemma PicksExtend(front: seq<Codec>, c: Codec, idx: seq<nat>, cs: seq<Codec>)
    requires Picks(front, idx, cs)
    ensures Picks(front + [c], idx, cs) && Picks(front + [c], idx + [|front|], cs + [c])
  {
  }

  lemma {:induction false} CommonIndices(codecs: seq<Codec>, keys: set<CodecKey>) returns (idx: seq<nat>)
    ensures Picks(codecs, idx, Common(codecs, keys))
    decreases |codecs|
  {
    hide Wanted;
    if codecs == [] {
      idx := [];
    } else {
      var n := |codecs| - 1;
      var t := CommonIndices(codecs[..n], keys);
      hide Picks;
      PicksExtend(codecs[..n], codecs[n], t, Common(codecs[..n], keys));
      assert codecs[..n] + [codecs[n]] == codecs;
      idx := if Wanted(codecs[n], keys) then t + [n] else t;
    }
  }

  lemma {:induction false} CommonDraws(codecs: seq<Codec>, keys: set<CodecKey>)
    ensures Draws(Common(codecs, keys), |Common(codecs, keys)|) <= Draws(codecs, |codecs|)
    decreases |codecs|
  {
    hide Wanted;
    if codecs != [] {
      var n := |codecs| - 1;
      CommonDraws(codecs[..n], keys);
      DrawsPrefix(codecs, n);
      DrawsOfConcat(Common(codecs[..n], keys), codecs[n]);
    }
  }

  lemma {:induction false} DrawsPrefix(codecs: seq<Codec>, n: nat)
    requires n <= |codecs|
    ensures Draws(codecs[..n], n) == Draws(codecs, n)
    decreases n
  {
    if n > 0 {
      DrawsPrefix(codecs[..n], n - 1);
      DrawsPrefix(codecs, n - 1);
      assert codecs[..n][..n - 1] == codecs[..n - 1];
    }
  }

  lemma DrawsOfConcat(t: seq<Codec>, c: Codec)
    ensures Draws(t + [c], |t| + 1) == Draws(t, |t|) + if c.FromPool() then 1 else 0
  {
    var s := t + [c];
    assert s[..|t|] == t;
    DrawsPrefix(s, |t|);
  }

  ghost predicate StrictlyRanked(cs: seq<Codec>, codecs: seq<Codec>) {
    && (forall c | c in cs :: Supports(codecs, c.Key()) && codecs[LastIndex(codecs, c.Key())] == c)
    && Increasing(cs, codecs)
  }

  ghost predicate Increasing(cs: seq<Codec>, codecs: seq<Codec>) {
    forall i, j | 0 <= i < j < |cs| :: LastIndex(codecs, cs[i].Key()) < LastIndex(codecs, cs[j].Key())
  }

  /** A selection is determined by its members once its order is the list's own. */
  lemma {:induction false} RankedUnique(a: seq<Codec>, b: seq<Codec>, codecs: seq<Codec>)
    requires StrictlyRanked(a, codecs) && StrictlyRanked(b, codecs)
    requires forall c :: c in a <==> c in b
    ensures a == b
    decreases |a|
  {
    hide LastIndex, Supports;
    if a == [] {
      if b != [] {
        SameHead(b, a, codecs);
        assert false;
      }
    } else {
      SameHead(a, b, codecs);
      assert a == [a[0]] + a[1..] && b == [b[0]] + b[1..];
      forall c ensures c in a[1..] <==> c in b[1..] {
        assert c in a <==> c == a[0] || c in a[1..];
        assert c in b <==> c == b[0] || c in b[1..];
      }
      RankedUnique(a[1..], b[1..], codecs);
    }
  }

  lemma SameHead(a: seq<Codec>, b: seq<Codec>, codecs: seq<Codec>)
    requires StrictlyRanked(a, codecs) && StrictlyRanked(b, codecs) && a != []
    requires forall c :: c in a <==> c in b
    ensures b != [] && a[0] == b[0]
  {
    hide LastIndex, Supports;
    assert a[0] in b;
    var i :| 0 <= i < |b| && b[i] == a[0];
    assert b[0] in a;
    var j :| 0 <= j < |a| && a[j] == b[0];
    var first, second := LastIndex(codecs, a[0].Key()), LastIndex(codecs, b[0].Key());
    if i > 0 && j > 0 { assert false; }
  }

  /** Selecting by the sorted offer gives the local codecs of the offered keys, in local order. */
  lemma SelectedIsCommon(rs: seq<Remote>, codecs: seq<Codec>, keys: set<CodecKey>)
    requires DistinctCodecs(codecs) && DistinctRemotes(rs) && ByRank(rs, codecs)
    requires forall k :: k in keys <==> exists i | 0 <= i < |rs| :: rs[i].key == k
    ensures Selected(rs, codecs) == Common(codecs, keys)
  {
    var a, b := Selected(rs, codecs), Common(codecs, keys);
    SelectedRanked(rs, codecs);
    CommonRanked(codecs, keys);
    SelectedFrom(rs, codecs);
    CommonMembers(codecs, keys);
    hide Selected, Common, LastIndex, StrictlyRanked, ByRank, DistinctRemotes;
    forall c ensures c in a <==> c in b {
      if c in a {
        var i :| 0 <= i < |rs| && rs[i].key == c.Key() && Supports(codecs, c.Key()) && c.Key() != TE_KEY;
        SelectedIsLocal(rs, codecs, c);
      }
      if c in b {
        var i :| 0 <= i < |rs| && rs[i].key == c.Key();
        IndexOfMember(codecs, c);
        assert codecs[LastIndex(codecs, rs[i].key)] in a;
      }
    }
    RankedUnique(a, b, codecs);
  }

  lemma IndexOfMember(codecs: seq<Codec>, c: Codec)
    requires DistinctCodecs(codecs) && c in codecs
    ensures Supports(codecs, c.Key()) && codecs[LastIndex(codecs, c.Key())] == c
  {
    var i :| 0 <= i < |codecs| && codecs[i] == c;
    var j := LastIndex(codecs, c.Key());
  }

  lemma {:induction false} SelectedIsLocal(rs: seq<Remote>, codecs: seq<Codec>, c: Codec)
    requires c in Selected(rs, codecs)
    ensures Supports(codecs, c.Key()) && codecs[LastIndex(codecs, c.Key())] == c
    decreases |rs|
  {
    hide LastIndex;
    if c in Selected(rs[1..], codecs) {
      SelectedIsLocal(rs[1..], codecs, c);
    }
  }

  lemma LaterRank(rs: seq<Remote>, codecs: seq<Codec>, i: nat)
    requires DistinctRemotes(rs) && ByRank(rs, codecs) && 0 < i < |rs|
    requires Supports(codecs, rs[0].key) && Supports(codecs, rs[i].key)
    ensures LastIndex(codecs, rs[0].key) < LastIndex(codecs, rs[i].key)
  {
    assert LocalRank(codecs, rs[0].key) <= LocalRank(codecs, rs[i].key);
  }

  lemma TailRemotes(rs: seq<Remote>, codecs: seq<Codec>)
    requires rs != [] && DistinctRemotes(rs) && ByRank(rs, codecs)
    ensures DistinctRemotes(rs[1..]) && ByRank(rs[1..], codecs)
  {
    hide LocalRank;
  }

  lemma ConsIncreasing(c: Codec, t: seq<Codec>, codecs: seq<Codec>)
    requires Increasing(t, codecs)
    requires forall j | 0 <= j < |t| :: LastIndex(codecs, c.Key()) < LastIndex(codecs, t[j].Key())
    ensures Increasing([c] + t, codecs)
  {
    hide LastIndex;
  }

  lemma {:induction false} SelectedIncreasing(rs: seq<Remote>, codecs: seq<Codec>)
    requires DistinctRemotes(rs) && ByRank(rs, codecs)
    ensures Increasing(Selected(rs, codecs), codecs)
    decreases |rs|
  {
    if rs != [] {
      var tail := rs[1..];
      var t := Selected(tail, codecs);
      TailRemotes(rs, codecs);
      SelectedIncreasing(tail, codecs);
      SelectedFrom(tail, codecs);
      hide LastIndex, DistinctRemotes, ByRank, Increasing;
      if Supports(codecs, rs[0].key) && rs[0].key != TE_KEY {
        var c := codecs[LastIndex(codecs, rs[0].key)];
        assert Selected(rs, codecs) == [c] + t;
        hide Selected;
        forall j | 0 <= j < |t| ensures LastIndex(codecs, c.Key()) < LastIndex(codecs, t[j].Key()) {
          assert t[j] in t;
          var i :| 0 <= i < |tail| && tail[i].key == t[j].Key() && Supports(codecs, t[j].Key());
          LaterRank(rs, codecs, i + 1);
        }
        ConsIncreasing(c, t, codecs);
      } else {
        assert Selected(rs, codecs) == t;
      }
    }
  }

  lemma SelectedRanked(rs: seq<Remote>, codecs: seq<Codec>)
    requires DistinctRemotes(rs) && ByRank(rs, codecs)
    ensures StrictlyRanked(Selected(rs, codecs), codecs)
  {
    hide Selected, LastIndex, Increasing;
    SelectedIncreasing(rs, codecs);
    forall c | c in Selected(rs, codecs) ensures Supports(codecs, c.Key()) && codecs[LastIndex(codecs, c.Key())] == c {
      SelectedIsLocal(rs, codecs, c);
    }
  }

  lemma CommonRanked(codecs: seq<Codec>, keys: set<CodecKey>)
    requires DistinctCodecs(codecs)
    ensures StrictlyRanked(Common(codecs, keys), codecs)
  {
    var cs := Common(codecs, keys);
    CommonMembers(codecs, keys);
    var idx := CommonIndices(codecs, keys);
    hide Common, Wanted, LastIndex;
    forall c | c in cs ensures Supports(codecs, c.Key()) && codecs[LastIndex(codecs, c.Key())] == c {
      IndexOfMember(codecs, c);
    }
    forall i | 0 <= i < |cs| ensures LastIndex(codecs, cs[i].Key()) == idx[i] {
      LastIndexIs(codecs, idx[i]);
    }
  }

  lemma LastIndexIs(codecs: seq<Codec>, i: nat)
    requires DistinctCodecs(codecs) && i < |codecs|
    ensures LastIndex(codecs, codecs[i].Key()) == i
  {
  }

  // ---------- What the answer keeps ----------

  function TypesOf(maps: seq<(int, Codec)>): (r: seq<int>)
    ensures |r| == |maps| && forall i | 0 <= i < |maps| :: r[i] == maps[i].0
  {
    seq(|maps|, i requires 0 <= i < |maps| => maps[i].0)
  }

  /** The entries whose type is still free: the first of each type. */
  function Unclaimed(taken: seq<int>, maps: seq<(int, Codec)>): seq<(int, Codec)>
    decreases |maps|
  {
    if maps == [] then []
    else if maps[0].0 in taken then Unclaimed(taken, maps[1..])
    else [maps[0]] + Unclaimed(taken + [maps[0].0], maps[1..])
  }

  function Extended(ch: Chosen, maps: seq<(int, Codec)>): Chosen {
    Chosen(ch.fmts + TypesOf(maps), ch.rtpmaps + maps, ch.fmtps + Fmtps(maps))
  }

  lemma ConsTypes(e: (int, Codec), maps: seq<(int, Codec)>)
    ensures TypesOf([e] + maps) == [e.0] + TypesOf(maps)
  {
    var all := [e] + maps;
    var types := TypesOf(all);
    hide TypesOf;
    forall i | 0 <= i < |all| ensures types[i] == ([e.0] + TypesOf(maps))[i] {
      if i > 0 { assert all[i] == maps[i - 1]; }
    }
  }

  lemma ConsMaps(e: (int, Codec), maps: seq<(int, Codec)>)
    ensures TypesOf([e] + maps) == [e.0] + TypesOf(maps)
    ensures Fmtps([e] + maps) == (if e.1.fmtp == [] then [] else [(e.0, e.1.fmtp)]) + Fmtps(maps)
  {
    hide TypesOf;
    ConsTypes(e, maps);
    assert ([e] + maps)[1..] == maps;
  }

  lemma Regroup<T>(a: seq<T>, b: seq<T>, c: seq<T>)
    ensures (a + b) + c == a + (b + c)
  {
  }

  lemma ExtendOne(ch: Chosen, pt: int, c: Codec, maps: seq<(int, Codec)>)
    requires pt !in ch.fmts
    ensures Extended(Add(ch, pt, c), maps) == Extended(ch, [(pt, c)] + maps)
  {
    hide TypesOf, Fmtps;
    ConsMaps((pt, c), maps);
    Regroup(ch.fmts, [pt], TypesOf(maps));
    Regroup(ch.rtpmaps, [(pt, c)], maps);
    Regroup(ch.fmtps, if c.fmtp == [] then [] else [(pt, c.fmtp)], Fmtps(maps));
    assert c.fmtp == [] ==> ch.fmtps + [] == ch.fmtps;
  }

  lemma ExtendNone(ch: Chosen)
    ensures Extended(ch, []) == ch
  {
    assert ch.fmts + TypesOf([]) == ch.fmts && ch.rtpmaps + [] == ch.rtpmaps && ch.fmtps + Fmtps([]) == ch.fmtps;
  }

  /** Adding codecs keeps exactly those whose type is still free. */
  lemma {:induction false} AddAllKept(ch: Chosen, cs: seq<Codec>, pref: int, next: nat)
    requires AssignPts(cs, pref, next).Some?
    ensures AddAll(ch, cs, pref, next)
        == Some(Extended(ch, Unclaimed(ch.fmts, Zip(AssignPts(cs, pref, next).value, cs))))
    decreases |cs|
  {
    hide AssignPt, Extended;
    var pts := AssignPts(cs, pref, next).value;
    if cs == [] {
      ExtendNone(ch);
    } else {
      var (pt, n) := AssignPt(cs[0], pref, next).value;
      var rest := AssignPts(cs[1..], pref, n).value;
      assert pts == [pt] + rest;
      var z := Zip(pts, cs);
      assert z[0] == (pt, cs[0]) && z[1..] == Zip(rest, cs[1..]);
      AddAllKept(Add(ch, pt, cs[0]), cs[1..], pref, n);
      if pt !in ch.fmts { ExtendOne(ch, pt, cs[0], Unclaimed(ch.fmts + [pt], z[1..])); }
    }
  }

  lemma DistinctSnoc(xs: seq<int>, x: int)
    requires Distinct(xs) && x !in xs
    ensures Distinct(xs + [x])
  {
  }

  lemma {:induction false} UnclaimedFrom(taken: seq<int>, maps: seq<(int, Codec)>)
    requires Distinct(taken)
    ensures forall e | e in Unclaimed(taken, maps) :: e in maps
    ensures Distinct(taken + TypesOf(Unclaimed(taken, maps)))
    decreases |maps|
  {
    if maps == [] {
      assert taken + TypesOf([]) == taken;
    } else {
      var e, t := maps[0], maps[1..];
      assert maps == [e] + t;
      if e.0 in taken {
        UnclaimedFrom(taken, t);
      } else {
        DistinctSnoc(taken, e.0);
        UnclaimedFrom(taken + [e.0], t);
        hide Distinct;
        var u := Unclaimed(taken + [e.0], t);
        assert taken + TypesOf([e] + u) == (taken + [e.0]) + TypesOf(u);
      }
    }
  }

  /** Nothing is left out exactly when no type is claimed twice. */
  lemma {:induction false} UnclaimedAll(taken: seq<int>, maps: seq<(int, Codec)>)
    requires Distinct(taken)
    ensures Unclaimed(taken, maps) == maps <==> Distinct(taken + TypesOf(maps))
    ensures |Unclaimed(taken, maps)| <= |maps|
    decreases |maps|
  {
    if maps == [] {
      assert taken + TypesOf(maps) == taken;
    } else {
      var e, t := maps[0], maps[1..];
      var all := taken + TypesOf(maps);
      if e.0 in taken {
        UnclaimedAll(taken, t);
        var k :| 0 <= k < |taken| && taken[k] == e.0;
        assert all[k] == all[|taken|];
      } else {
        DistinctSnoc(taken, e.0);
        UnclaimedAll(taken + [e.0], t);
        hide Distinct;
        assert all == (taken + [e.0]) + TypesOf(t);
        var u := Unclaimed(taken + [e.0], t);
        assert ([e] + u)[1..] == u && [e] + t == maps;
      }
    }
  }

  ghost predicate DistinctMapKeys(maps: seq<(int, Codec)>) {
    forall i, j | 0 <= i < j < |maps| :: maps[i].1.Key() != maps[j].1.Key()
  }

  lemma TailKeysDistinct(maps: seq<(int, Codec)>)
    requires maps != [] && DistinctMapKeys(maps)
    ensures DistinctMapKeys(maps[1..]) && forall e | e in maps[1..] :: e.1.Key() != maps[0].1.Key()
  {
    forall e | e in maps[1..] ensures e.1.Key() != maps[0].1.Key() {
      var j :| 0 <= j < |maps[1..]| && maps[1..][j] == e;
      assert maps[j + 1] == e;
    }
  }

  /** What is kept has distinct keys, and an entry left out leaves its key out. */
  lemma {:induction false} UnclaimedKeys(taken: seq<int>, maps: seq<(int, Codec)>)
    requires Distinct(taken) && DistinctMapKeys(maps)
    ensures DistinctMapKeys(Unclaimed(taken, maps))
    ensures Unclaimed(taken, maps) != maps ==>
              exists e | e in maps :: forall k | k in Unclaimed(taken, maps) :: k.1.Key() != e.1.Key()
    decreases |maps|
  {
    if maps != [] {
      var e, t := maps[0], maps[1..];
      TailKeysDistinct(maps);
      assert maps == [e] + t;
      hide DistinctMapKeys;
      if e.0 in taken {
        UnclaimedKeys(taken, t);
        UnclaimedFrom(taken, t);
        assert e in maps && forall k | k in Unclaimed(taken, t) :: k.1.Key() != e.1.Key();
      } else {
        DistinctSnoc(taken, e.0);
        UnclaimedKeys(taken + [e.0], t);
        UnclaimedFrom(taken + [e.0], t);
        var u := Unclaimed(taken + [e.0], t);
        ConsKeysDistinct(e, u);
        if u != t {
          var d :| d in t && forall k | k in u :: k.1.Key() != d.1.Key();
          assert d in maps && forall k | k in [e] + u :: k.1.Key() != d.1.Key();
        }
      }
    }
  }

  lemma ConsKeysDistinct(e: (int, Codec), u: seq<(int, Codec)>)
    requires DistinctMapKeys(u) && forall k | k in u :: k.1.Key() != e.1.Key()
    ensures DistinctMapKeys([e] + u)
  {
    var all := [e] + u;
    forall i, j | 0 <= i < j < |all| ensures all[i].1.Key() != all[j].1.Key() {
      assert u[j - 1] in u;
    }
  }

  lemma CommonCompatible(codecs: seq<Codec>, keys: set<CodecKey>, pref: int)
    requires CompatiblePts(codecs, pref)
    ensures CompatiblePts(Common(codecs, keys), pref)
  {
    var idx := CommonIndices(codecs, keys);
    hide Common;
  }

  lemma CommonAllocates(codecs: seq<Codec>, keys: set<CodecKey>, pref: int)
    requires AssignPts(codecs, pref, 96).Some?
    ensures AssignPts(Common(codecs, keys), pref, 96).Some?
  {
    AllocatorExact(codecs, pref);
    AllocatorExact(Common(codecs, keys), pref);
    CommonDraws(codecs, keys);
  }

  // ---------- The answer to a well-formed offer, exactly ----------

  ghost function Keys(codecs: seq<Codec>): set<CodecKey> { set i | 0 <= i < |codecs| :: codecs[i].Key() }

  lemma KeysSupported(codecs: seq<Codec>, key: CodecKey)
    ensures key in Keys(codecs) <==> Supports(codecs, key)
  {
  }

  ghost predicate TelephoneEventShared(a: MediaCap, b: MediaCap) {
    TE_KEY in Keys(a.codecs) && Supports(b.codecs, TE_KEY)
  }

  /** Telephone-event, if shared, then every other shared codec, each with the type the answerer gives it. */
  ghost function Candidates(a: MediaCap, b: MediaCap): Option<seq<(int, Codec)>> {
    var cs := Common(b.codecs, Keys(a.codecs));
    var pts :- AssignPts(cs, b.tePref, 96);
    Some((if TelephoneEventShared(a, b) then [(b.tePref, b.codecs[LastIndex(b.codecs, TE_KEY)])]
          else []) + Zip(pts, cs))
  }

  /** The shared codecs an answer advertises: the first of each payload type. */
  ghost function Agreed(a: MediaCap, b: MediaCap): Option<seq<(int, Codec)>> {
    var maps :- Candidates(a, b);
    Some(Unclaimed([], maps))
  }

  /** telephone-event/8000 and another shared codec both want the preferred type. */
  ghost predicate Clash(a: MediaCap, b: MediaCap) {
    TelephoneEventShared(a, b)
    && exists c | c in Common(b.codecs, Keys(a.codecs)) :: c.TakesPreference() || c.staticPt == Some(b.tePref)
  }

  /** Two lists with the same entries, one of them mirroring the offered codecs. */
  lemma MirroredOffer(codecs: seq<Codec>, us: seq<Remote>, rs: seq<Remote>)
    requires |us| == |codecs| && forall i | 0 <= i < |us| ::
        us[i].key == codecs[i].Key() && us[i].fmtp == codecs[i].fmtp
    requires forall r :: r in rs <==> r in us
    ensures forall k :: k in Keys(codecs) <==> exists i | 0 <= i < |rs| :: rs[i].key == k
    ensures forall r | r in rs :: exists i | 0 <= i < |codecs| :: r.fmtp == codecs[i].fmtp
  {
    forall k ensures k in Keys(codecs) <==> exists i | 0 <= i < |rs| :: rs[i].key == k {
      if k in Keys(codecs) {
        var i :| 0 <= i < |codecs| && codecs[i].Key() == k;
        assert us[i] in us && us[i] in rs;
        var j :| 0 <= j < |rs| && rs[j] == us[i];
      }
      if j :| 0 <= j < |rs| && rs[j].key == k {
        assert rs[j] in rs && rs[j] in us;
        var i :| 0 <= i < |us| && us[i] == rs[j];
        assert codecs[i].Key() == k;
      }
    }
    forall r | r in rs ensures exists i | 0 <= i < |codecs| :: r.fmtp == codecs[i].fmtp {
      assert r in us;
      var i :| 0 <= i < |us| && us[i] == r;
      assert r.fmtp == codecs[i].fmtp;
    }
  }

  /** What the answerer's sorted list of remote codecs looks like. */
  lemma SortedOffer(a: MediaCap, pts: seq<int>, ip: string, codecs: seq<Codec>)
    requires |pts| == |a.codecs| && Distinct(pts) && DistinctCodecs(a.codecs)
    ensures var rs := SortByPreference(Remotes(Offered(a, pts, ip), pts), codecs);
            && DistinctRemotes(rs) && ByRank(rs, codecs)
            && (forall k :: k in Keys(a.codecs) <==> exists i | 0 <= i < |rs| :: rs[i].key == k)
            && (forall r | r in rs :: exists i | 0 <= i < |a.codecs| :: r.fmtp == a.codecs[i].fmtp)
  {
    var us := Remotes(Offered(a, pts, ip), pts);
    assert pts[0..] == pts;
    RemotesOfOffer(a, pts, ip, 0);
    hide Remotes, Offered, SortByPreference, LocalRank, Keys, ByRank;
    assert DistinctRemotes(us);
    hide DistinctRemotes, DistinctCodecs, Distinct;
    SortDistinct(us, codecs);
    PreferenceSort(us, codecs);
    MirroredOffer(a.codecs, us, SortByPreference(us, codecs));
  }

  /** The preferred type is given to a shared codec exactly when that codec asks for it. */
  lemma PreferenceTaken(cs: seq<Codec>, pref: int)
    requires AssignPts(cs, pref, 96).Some?
    ensures pref in AssignPts(cs, pref, 96).value <==> exists c | c in cs ::
        c.TakesPreference() || c.staticPt == Some(pref)
  {
    var pts := AssignPts(cs, pref, 96).value;
    AllocatorExact(cs, pref);
    PoolShape(96, pref);
    hide AssignPts, PoolFrom, Draws;
    if pref in pts {
      var i :| 0 <= i < |pts| && pts[i] == pref;
      assert GivenPt(cs, pref, Pool(pref), i, pts[i]);
      assert cs[i] in cs;
    }
    if c :| c in cs && (c.TakesPreference() || c.staticPt == Some(pref)) {
      var i :| 0 <= i < |cs| && cs[i] == c;
      assert GivenPt(cs, pref, Pool(pref), i, pts[i]);
    }
  }

  lemma DistinctCons(x: int, xs: seq<int>)
    requires Distinct(xs)
    ensures Distinct([x] + xs) <==> x !in xs
  {
    var all := [x] + xs;
    if x in xs {
      var i :| 0 <= i < |xs| && xs[i] == x;
      assert all[0] == all[i + 1];
    }
  }

  lemma CandidateTypes(a: MediaCap, b: MediaCap)
    requires Candidates(a, b).Some?
    ensures var pts := AssignPts(Common(b.codecs, Keys(a.codecs)), b.tePref, 96).value;
      TypesOf(Candidates(a, b).value) == (if TelephoneEventShared(a, b) then [b.tePref] else []) + pts
  {
    hide AssignPts, Common, LastIndex, Keys;
  }

  /** The answerer's types for the shared codecs are pairwise distinct exactly when nothing clashes. */
  lemma ApartExact(a: MediaCap, b: MediaCap)
    requires CompatiblePts(b.codecs, b.tePref) && AssignPts(b.codecs, b.tePref, 96).Some?
    ensures Candidates(a, b).Some?
    ensures Distinct(TypesOf(Candidates(a, b).value)) <==> !Clash(a, b)
  {
    var keys := Keys(a.codecs);
    var cs := Common(b.codecs, keys);
    CommonAllocates(b.codecs, keys, b.tePref);
    CommonCompatible(b.codecs, keys, b.tePref);
    AllocatedDistinct(cs, b.tePref);
    PreferenceTaken(cs, b.tePref);
    CandidateTypes(a, b);
    var pts := AssignPts(cs, b.tePref, 96).value;
    hide AssignPts, Common, CompatiblePts, LastIndex, Keys, Candidates, Distinct, TypesOf;
    DistinctCons(b.tePref, pts);
    assert [] + pts == pts;
  }

  /** What is advertised beside telephone-event/8000. */
  lemma AgreedSplit(a: MediaCap, b: MediaCap)
    requires Candidates(a, b).Some?
    ensures var cs := Common(b.codecs, Keys(a.codecs));
      var z := Zip(AssignPts(cs, b.tePref, 96).value, cs);
      Agreed(a, b).value
      == if TelephoneEventShared(a, b)
         then [(b.tePref, b.codecs[LastIndex(b.codecs, TE_KEY)])] + Unclaimed([b.tePref], z) else Unclaimed([], z)
  {
    hide AssignPts, Common, LastIndex, Keys;
    var cs := Common(b.codecs, Keys(a.codecs));
    var z := Zip(AssignPts(cs, b.tePref, 96).value, cs);
    if TelephoneEventShared(a, b) {
      var e := (b.tePref, b.codecs[LastIndex(b.codecs, TE_KEY)]);
      assert ([e] + z)[1..] == z;
      assert [] + [b.tePref] == [b.tePref];
    } else {
      assert [] + z == z;
    }
  }

  /** The answerer adds the shared codecs to telephone-event/8000. */
  lemma ChooseIs(a: MediaCap, b: MediaCap, pts: seq<int>, ip: string) returns (te: Chosen)
    requires |pts| == |a.codecs| && Distinct(pts) && WellFormedMedia(a) && WellFormedMedia(b)
    ensures Choose(Offered(a, pts, ip), b) == AddAll(te, Common(b.codecs, Keys(a.codecs)), b.tePref, 96)
    ensures te.fmts == if TelephoneEventShared(a, b) then [b.tePref] else []
    ensures te.rtpmaps == if TelephoneEventShared(a, b) then [(b.tePref, b.codecs[LastIndex(b.codecs, TE_KEY)])] else []
    ensures FmtpsClean(te.fmtps, te.fmts) && Consistent(te)
  {
    var md := Offered(a, pts, ip);
    assert md.fmts == pts && DistinctCodecs(a.codecs) && DistinctCodecs(b.codecs);
    var rs := SortByPreference(Remotes(md, pts), b.codecs);
    te := ChooseTelephoneEvent(rs, b);
    hide SortByPreference, Remotes, Offered, Common, FirstOf, Selected, LastIndex, AddAll, Keys, ByRank,
         DistinctRemotes, Events, FmtpsClean, WellFormedMedia, DistinctCodecs, Distinct;
    SortedOffer(a, pts, ip, b.codecs);
    SelectedIsCommon(rs, b.codecs, Keys(a.codecs));
    FirstOfExact(rs, TE_KEY);
    TelephoneEventClean(a, b, rs);
  }

  lemma WellFormedApart(a: MediaCap, b: MediaCap)
    requires WellFormedMedia(b)
    ensures Candidates(a, b).Some? && Agreed(a, b).Some?
        && AssignPts(Common(b.codecs, Keys(a.codecs)), b.tePref, 96).Some?
    ensures Distinct(TypesOf(Candidates(a, b).value)) <==> !Clash(a, b)
    ensures DistinctCodecs(b.codecs) && forall i | 0 <= i < |b.codecs| ::
        CleanCodec(b.codecs[i]) && CleanParams(b.codecs[i].fmtp)
  {
    ApartExact(a, b);
    CommonAllocates(b.codecs, Keys(a.codecs), b.tePref);
    hide Common, Keys, AssignPts, CleanCodec, CleanParams, DistinctCodecs, Distinct, Clash, CompatiblePts, IsProtoChar;
  }

  /** Telephone-event and the codecs whose type is free are the agreed ones. */
  lemma AgreedExtends(a: MediaCap, b: MediaCap, te: Chosen)
    requires WellFormedMedia(b) && Candidates(a, b).Some?
        && AssignPts(Common(b.codecs, Keys(a.codecs)), b.tePref, 96).Some?
    requires te.fmts == if TelephoneEventShared(a, b) then [b.tePref] else []
    requires te.rtpmaps == if TelephoneEventShared(a, b) then [(b.tePref, b.codecs[LastIndex(b.codecs, TE_KEY)])]
        else []
    ensures var cs := Common(b.codecs, Keys(a.codecs));
      var u := Unclaimed(te.fmts, Zip(AssignPts(cs, b.tePref, 96).value, cs));
      && te.rtpmaps + u == Agreed(a, b).value && Distinct(te.fmts + TypesOf(u))
      && (forall i | 0 <= i < |u| :: u[i].0 >= 0 && u[i].1 in b.codecs)
  {
    hide AssignPts, Common, LastIndex, Keys, WellFormedMedia, Unclaimed, Candidates, Distinct, Zip,
         TelephoneEventShared, DistinctCodecs;
    AgreedSplit(a, b);
    AgreedFrom(a, b);
    hide Agreed;
    var cs := Common(b.codecs, Keys(a.codecs));
    var z := Zip(AssignPts(cs, b.tePref, 96).value, cs);
    var u := Unclaimed(te.fmts, z);
    assert [] + u == u;
    DistinctShort(te.fmts);
    UnclaimedFrom(te.fmts, z);
    forall i | 0 <= i < |u| ensures u[i].0 >= 0 && u[i].1 in b.codecs {
      assert (te.rtpmaps + u)[|te.rtpmaps| + i] == u[i];
    }
  }

  lemma ExtendedMaps(te: Chosen, u: seq<(int, Codec)>)
    ensures Extended(te, u).rtpmaps == te.rtpmaps + u
  {
  }

  /** The answerer chooses the agreed codecs, and drops no shared one if and only if nothing clashes. */
  lemma ChooseExact(a: MediaCap, b: MediaCap, pts: seq<int>, ip: string)
    requires |pts| == |a.codecs| && Distinct(pts) && WellFormedMedia(a) && WellFormedMedia(b)
    ensures Choose(Offered(a, pts, ip), b).Some? && Candidates(a, b).Some? && Agreed(a, b).Some?
    ensures var ch := Choose(Offered(a, pts, ip), b).value;
            && ch.rtpmaps == Agreed(a, b).value && Consistent(ch) && FmtpsClean(ch.fmtps, ch.fmts)
            && (ch.rtpmaps == Candidates(a, b).value <==> !Clash(a, b))
  {
    hide *;
    WellFormedApart(a, b);
    var te := ChooseIs(a, b, pts, ip);
    var cs := Common(b.codecs, Keys(a.codecs));
    var u := Unclaimed(te.fmts, Zip(AssignPts(cs, b.tePref, 96).value, cs));
    AddAllKept(te, cs, b.tePref, 96);
    AgreedExtends(a, b, te);
    ExtendedMaps(te, u);
    ExtendedClean(te, u, b.codecs);
    AgreedAll(a, b);
  }

  lemma AgreedAll(a: MediaCap, b: MediaCap)
    requires Candidates(a, b).Some?
    ensures Agreed(a, b).value == Candidates(a, b).value <==> Distinct(TypesOf(Candidates(a, b).value))
  {
    hide Candidates, Distinct, Unclaimed;
    var all := Candidates(a, b).value;
    DistinctShort([]);
    UnclaimedAll([], all);
    assert [] + TypesOf(all) == TypesOf(all);
  }

  lemma DistinctShort(xs: seq<int>)
    requires |xs| <= 1
    ensures Distinct(xs)
  {
  }

  /** Parameters that print and parse back, one list per advertised format. */
  ghost predicate FmtpsClean(fmtps: seq<(int, Params)>, fmts: seq<int>) {
    && DistinctKeys(fmtps)
    && forall i | 0 <= i < |fmtps| :: fmtps[i].0 in fmts && fmtps[i].1 != [] && CleanParams(fmtps[i].1)
  }

  lemma {:induction false} GetClean(d: Params, k: string)
    requires CleanParams(d) && Get(d, k).Some?
    ensures CleanText(Get(d, k).value) && ';' !in Get(d, k).value
    decreases |d|
  {
    if d[0].0 != k {
      forall i | 0 <= i < |d[1..]| ensures CleanParam(d[1..][i]) { assert d[1..][i] == d[i + 1]; }
      forall i, j | 0 <= i < j < |d[1..]| ensures d[1..][i].0 != d[1..][j].0 { assert d[i + 1].0 != d[j + 1].0; }
      GetClean(d[1..], k);
    } else {
      assert CleanParam(d[0]);
    }
  }

  lemma EventsClean(local: Params, remote: Params)
    requires CleanParams(local) && CleanParams(remote)
    ensures CleanParams([("events", Events(local, remote))])
  {
    if Get(local, "events").Some? { GetClean(local, "events"); }
    if Get(remote, "events").Some? { GetClean(remote, "events"); }
    assert CleanText("0-16") && ';' !in "0-16";
    assert CleanText("events") && ';' !in "events" && '=' !in "events";
    hide Get, CleanText;
    var e := Events(local, remote);
    assert CleanText(e) && ';' !in e;
    assert CleanParam(("events", e));
  }

  lemma TelephoneEventClean(a: MediaCap, b: MediaCap, rs: seq<Remote>)
    requires WellFormedMedia(a) && WellFormedMedia(b)
    requires forall r | r in rs :: exists i | 0 <= i < |a.codecs| :: r.fmtp == a.codecs[i].fmtp
    ensures var te := ChooseTelephoneEvent(rs, b);
            FmtpsClean(te.fmtps, te.fmts) && Consistent(te) && (te.fmts == [] ==> te.fmtps == [])
  {
    FirstOfExact(rs, TE_KEY);
    hide LastIndex, FirstOf, CleanParams, CleanCodec, Events, AssignPts, CompatiblePts, DistinctCodecs, IsProtoChar;
    if Supports(b.codecs, TE_KEY) && FirstOf(rs, TE_KEY).Some? {
      var r := FirstOf(rs, TE_KEY).value;
      var i :| 0 <= i < |a.codecs| && r.fmtp == a.codecs[i].fmtp;
      assert CleanParams(r.fmtp);
      EventsClean(b.codecs[LastIndex(b.codecs, TE_KEY)].fmtp, r.fmtp);
    }
  }

  lemma ExtendedClean(te: Chosen, u: seq<(int, Codec)>, codecs: seq<Codec>)
    requires Distinct(te.fmts + TypesOf(u)) && Consistent(te)
    requires FmtpsClean(te.fmtps, te.fmts)
    requires forall i | 0 <= i < |u| :: u[i].0 >= 0 && u[i].1 in codecs
    requires forall i | 0 <= i < |codecs| :: CleanCodec(codecs[i]) && CleanParams(codecs[i].fmtp)
    ensures var r := Extended(te, u); Consistent(r) && FmtpsClean(r.fmtps, r.fmts)
  {
    var ps := TypesOf(u);
    var all := te.fmts + ps;
    forall i, j | 0 <= i < j < |ps| ensures ps[i] != ps[j] {
      assert all[|te.fmts| + i] == ps[i] && all[|te.fmts| + j] == ps[j];
    }
    assert DistinctKeys(u);
    forall i | 0 <= i < |u| ensures u[i].0 >= 0 && CleanCodec(u[i].1) && CleanParams(u[i].1.fmtp) {
      var k :| 0 <= k < |codecs| && codecs[k] == u[i].1;
    }
    MapsClean(u);
    FmtpsFrom(u);
    hide CleanCodec, CleanParams, Fmtps;
    var fs := Fmtps(u);
    forall i | 0 <= i < |fs| ensures fs[i].0 in ps {
      assert fs[i] in fs;
      var j :| 0 <= j < |u| && fs[i] == (u[j].0, u[j].1.fmtp) && u[j].1.fmtp != [];
      assert u[j].0 == ps[j];
    }
    forall x | x in te.fmts ensures x !in ps {
      var i :| 0 <= i < |te.fmts| && te.fmts[i] == x;
      forall j | 0 <= j < |ps| ensures ps[j] != x { assert all[i] == x && all[|te.fmts| + j] == ps[j]; }
    }
  }

  /** Candidates are the answerer's own codecs, under a usable type and a key of the offerer. */
  lemma CandidatesFrom(a: MediaCap, b: MediaCap)
    requires WellFormedMedia(b) && Candidates(a, b).Some?
    ensures forall i | 0 <= i < |Candidates(a, b).value| ::
              var e := Candidates(a, b).value[i]; e.0 >= 0 && e.1 in b.codecs && e.1.Key() in Keys(a.codecs)
  {
    var keys := Keys(a.codecs);
    var cs := Common(b.codecs, keys);
    CommonMembers(b.codecs, keys);
    CommonCompatible(b.codecs, keys, b.tePref);
    AllocatedDistinct(cs, b.tePref);
    var maps := Candidates(a, b).value;
    var k := |maps| - |cs|;
    assert Supports(b.codecs, TE_KEY) ==> b.tePref >= 0 by {
      if Supports(b.codecs, TE_KEY) { assert b.codecs[LastIndex(b.codecs, TE_KEY)].IsTelephoneEvent(); }
    }
    hide AssignPts, Common, CompatiblePts, LastIndex, Keys, CleanCodec, CleanParams;
    forall i | 0 <= i < |maps| ensures maps[i].0 >= 0 && maps[i].1 in b.codecs && maps[i].1.Key() in keys {
      if i >= k { assert maps[i] == Zip(AssignPts(cs, b.tePref, 96).value, cs)[i - k]; assert cs[i - k] in cs; }
    }
  }

  lemma AgreedFrom(a: MediaCap, b: MediaCap)
    requires WellFormedMedia(b) && Agreed(a, b).Some?
    ensures forall i | 0 <= i < |Agreed(a, b).value| ::
              var e := Agreed(a, b).value[i]; e.0 >= 0 && e.1 in b.codecs && e.1.Key() in Keys(a.codecs)
  {
    CandidatesFrom(a, b);
    hide Candidates, Unclaimed, WellFormedMedia, Keys;
    var maps, kept := Candidates(a, b).value, Agreed(a, b).value;
    DistinctShort([]);
    UnclaimedFrom([], maps);
    forall i | 0 <= i < |kept| ensures kept[i].0 >= 0 && kept[i].1 in b.codecs && kept[i].1.Key() in Keys(a.codecs) {
      assert kept[i] in kept && kept[i] in maps;
      var j :| 0 <= j < |maps| && maps[j] == kept[i];
    }
  }

  lemma RefusedClean(a: MediaCap, pts: seq<int>, ip: string)
    requires WellFormedMedia(a) && AssignPts(a.codecs, a.tePref, 96) == Some(pts)
    requires a.media == "audio" || a.media == "video"
    ensures CleanSection(Refused(Offered(a, pts, ip)))
  {
    MediaName(a.media);
    AllocatedDistinct(a.codecs, a.tePref);
    hide AssignPts, CompatiblePts, CleanCodec, CleanParams, IsAlpha, IsProtoChar, All;
  }

  lemma AnswerDirectionValid(a: string, b: string)
    requires IsDirection(a) && IsDirection(b)
    ensures IsDirection(AnswerDirection(Some(a), b)) && AnswerDirection(Some(a), b) != ""
  {
  }

  lemma AcceptedClean(a: MediaCap, b: MediaCap, ch: Chosen)
    requires WellFormedMedia(a) && WellFormedMedia(b) && (a.media == "audio" || a.media == "video")
    requires Agreed(a, b).Some? && ch.rtpmaps == Agreed(a, b).value && Consistent(ch) && FmtpsClean(ch.fmtps, ch.fmts)
        && ch.fmts != []
    ensures CleanSection(Section(a.media, b.port, b.profile, ch.fmts,
                                 Some(AnswerDirection(Some(a.direction), b.direction)),
                                 b.rtcpMux && a.rtcpMux, ch.rtpmaps, ch.fmtps))
  {
    hide AssignPts, CompatiblePts, CleanCodec, CleanParams, IsAlpha, IsProtoChar, All, Agreed, IsDirection,
         AnswerDirection, Keys, DistinctCodecs;
    MediaName(a.media);
    AgreedFrom(a, b);
    AnswerDirectionValid(a.direction, b.direction);
    ChosenClean(ch, b.codecs);
    hide Consistent, FmtpsClean;
  }

  lemma ChosenClean(ch: Chosen, codecs: seq<Codec>)
    requires Consistent(ch) && FmtpsClean(ch.fmtps, ch.fmts)
    requires forall i | 0 <= i < |ch.rtpmaps| :: ch.rtpmaps[i].0 >= 0 && ch.rtpmaps[i].1 in codecs
    requires forall i | 0 <= i < |codecs| :: CleanCodec(codecs[i])
    ensures forall i | 0 <= i < |ch.fmts| :: ch.fmts[i] >= 0
    ensures DistinctKeys(ch.rtpmaps) && forall i | 0 <= i < |ch.rtpmaps| ::
        ch.rtpmaps[i].0 >= 0 && CleanCodec(ch.rtpmaps[i].1)
    ensures DistinctKeys(ch.fmtps) && forall i | 0 <= i < |ch.fmtps| ::
        ch.fmtps[i].0 >= 0 && ch.fmtps[i].1 != [] && CleanParams(ch.fmtps[i].1)
  {
    hide CleanCodec, CleanParams;
    forall i | 0 <= i < |ch.fmts| ensures ch.fmts[i] >= 0 { assert ch.rtpmaps[i].0 == ch.fmts[i]; }
    forall i | 0 <= i < |ch.rtpmaps| ensures CleanCodec(ch.rtpmaps[i].1) {
      var j :| 0 <= j < |codecs| && codecs[j] == ch.rtpmaps[i].1;
    }
  }

  /** Is this line of the offer accepted? */
  ghost predicate Accepted(a: MediaCap, b: Option<MediaCap>) {
    b.Some? && Agreed(a, b.value).Some? && Agreed(a, b.value).value != []
  }

  ghost predicate AnsweredLine(a: MediaCap, b: Option<MediaCap>, s: Section) {
    if Accepted(a, b) then
      && s.media == a.media && s.port == b.value.port && s.rtpmaps == Agreed(a, b.value).value
      && s.direction == Some(AnswerDirection(Some(a.direction), b.value.direction))
      && (s.rtcpMux <==> a.rtcpMux && b.value.rtcpMux)
    else s.port == 0
  }

  lemma AnswerSectionExact(a: MediaCap, local: SessionCap, pts: seq<int>, ip: string)
    requires WellFormedMedia(a) && AssignPts(a.codecs, a.tePref, 96) == Some(pts)
        && (a.media == "audio" || a.media == "video")
    requires WellFormed(local)
    ensures AnswerSection(Offered(a, pts, ip), local).Some?
    ensures CleanSection(AnswerSection(Offered(a, pts, ip), local).value)
    ensures AnsweredLine(a, LocalMedia(local, a.media), AnswerSection(Offered(a, pts, ip), local).value)
  {
    hide WellFormedMedia, AssignPts, Choose, Agreed, CleanSection, AnswerDirection, FmtpsClean, Offered, Candidates,
         Clash, Distinct;
    var cap := LocalMedia(local, a.media);
    RefusedClean(a, pts, ip);
    OfferedFields(a, pts, ip);
    if cap.Some? {
      var b := cap.value;
      AllocatedTypes(a);
      ChooseExact(a, b, pts, ip);
      var ch := Choose(Offered(a, pts, ip), b).value;
      if ch.fmts != [] { AcceptedClean(a, b, ch); }
    }
  }

  lemma OfferedFields(a: MediaCap, pts: seq<int>, ip: string)
    requires |pts| == |a.codecs|
    ensures var md := Offered(a, pts, ip);
      md.media == a.media && md.direction == Some(a.direction) && md.rtcpMux == a.rtcpMux
  {
    hide RtpEntries, Zip, Fmtps;
  }

  lemma AllocatedTypes(a: MediaCap)
    requires WellFormedMedia(a)
    ensures AssignPts(a.codecs, a.tePref, 96).Some? && Distinct(AssignPts(a.codecs, a.tePref, 96).value)
  {
    AllocatedDistinct(a.codecs, a.tePref);
    hide AssignPts, CompatiblePts, CleanCodec, CleanParams, IsProtoChar, DistinctCodecs, Distinct;
  }

  // ---------- The negotiated session ----------

  /** Telephone-event first when shared, then the common codecs of the answerer. */
  lemma CandidatesShape(a: MediaCap, b: MediaCap)
    requires Candidates(a, b).Some?
    ensures var maps, cs := Candidates(a, b).value, Common(b.codecs, Keys(a.codecs));
            var te := TE_KEY in Keys(a.codecs) && Supports(b.codecs, TE_KEY);
            var k := if te then 1 else 0;
            && |maps| == |cs| + k && (te ==> maps[0].1.Key() == TE_KEY)
            && (forall i | k <= i < |maps| :: maps[i].1 == cs[i - k])
  {
    hide AssignPts, Common, LastIndex, Keys;
  }

  /** Candidates have pairwise different keys. */
  lemma CandidatesOnce(a: MediaCap, b: MediaCap)
    requires DistinctCodecs(b.codecs) && Candidates(a, b).Some?
    ensures DistinctMapKeys(Candidates(a, b).value)
  {
    var keys := Keys(a.codecs);
    var cs := Common(b.codecs, keys);
    var maps := Candidates(a, b).value;
    CandidatesShape(a, b);
    CommonMembers(b.codecs, keys);
    CommonRanked(b.codecs, keys);
    hide Candidates, Common, LastIndex, Keys;
    var k := |maps| - |cs|;
    forall i, j | 0 <= i < j < |maps| ensures maps[i].1.Key() != maps[j].1.Key() {
      assert cs[j - k] in cs;
      if i >= k {
        assert LastIndex(b.codecs, cs[i - k].Key()) < LastIndex(b.codecs, cs[j - k].Key());
      }
    }
  }

  /** The keys of the candidates are exactly the shared ones. */
  lemma CandidatesKeys(a: MediaCap, b: MediaCap, q: CodecKey)
    requires WellFormedMedia(b) && Candidates(a, b).Some?
    ensures q in Keys(a.codecs) && q in Keys(b.codecs) <==> exists i | 0 <= i < |Candidates(a, b).value| ::
        Candidates(a, b).value[i].1.Key() == q
  {
    hide Candidates, Common, LastIndex, WellFormedMedia, AssignPts;
    var keys := Keys(a.codecs);
    var cs := Common(b.codecs, keys);
    var maps := Candidates(a, b).value;
    CandidatesShape(a, b);
    CandidatesFrom(a, b);
    CommonMembers(b.codecs, keys);
    KeysSupported(b.codecs, TE_KEY);
    var k := |maps| - |cs|;
    if q in keys && q in Keys(b.codecs) {
      if q == TE_KEY {
        assert maps[0].1.Key() == q;
      } else {
        var j :| 0 <= j < |b.codecs| && b.codecs[j].Key() == q;
        assert b.codecs[j] in cs;
        var i :| 0 <= i < |cs| && cs[i] == b.codecs[j];
        assert maps[i + k].1.Key() == q;
      }
    }
    if i :| 0 <= i < |maps| && maps[i].1.Key() == q {
      var j :| 0 <= j < |b.codecs| && b.codecs[j] == maps[i].1;
    }
  }

  /** The offerer's own codec and type for an agreed entry, received under the answered type. */
  ghost function FormatOf(a: MediaCap, pts: seq<int>, e: (int, Codec)): NegotiatedFormat
    requires |pts| == |a.codecs| && Supports(a.codecs, e.1.Key())
  {
    var i := LastIndex(a.codecs, e.1.Key());
    NegotiatedFormat(e.0, pts[i], a.codecs[i])
  }

  ghost function FormatsOf(a: MediaCap, pts: seq<int>, maps: seq<(int, Codec)>): (r: seq<NegotiatedFormat>)
    requires |pts| == |a.codecs|
    requires forall i | 0 <= i < |maps| :: Supports(a.codecs, maps[i].1.Key())
    ensures |r| == |maps| && forall j | 0 <= j < |maps| :: r[j] == FormatOf(a, pts, maps[j])
  {
    seq(|maps|, j requires 0 <= j < |maps| => FormatOf(a, pts, maps[j]))
  }

  lemma {:induction false} PtOfOffer(pts: seq<int>, codecs: seq<Codec>, i: nat)
    requires |pts| == |codecs| && DistinctCodecs(codecs) && i < |codecs|
    ensures PtOf(RtpEntries(Zip(pts, codecs)), codecs[i].Key()) == Some(pts[i])
    decreases |codecs|
  {
    var es := RtpEntries(Zip(pts, codecs));
    assert es[0].1.Key() == codecs[0].Key() && es[0].0 == pts[0];
    if i > 0 {
      assert codecs[0].Key() != codecs[i].Key();
      forall x, y | 0 <= x < y < |codecs[1..]| ensures codecs[1..][x].Key() != codecs[1..][y].Key() {
        assert codecs[x + 1].Key() != codecs[y + 1].Key();
      }
      assert es[1..] == RtpEntries(Zip(pts[1..], codecs[1..]));
      PtOfOffer(pts[1..], codecs[1..], i - 1);
    }
  }

  lemma OneFormat(a: MediaCap, pts: seq<int>, e: (int, Codec))
    requires |pts| == |a.codecs| && DistinctCodecs(a.codecs) && Supports(a.codecs, e.1.Key())
    ensures Format(e.0, e.1.Key(), RtpEntries(Zip(pts, a.codecs)), a.codecs) == Some(FormatOf(a, pts, e))
  {
    var i := LastIndex(a.codecs, e.1.Key());
    hide RtpEntries, Zip, LastIndex, PtOf;
    PtOfOffer(pts, a.codecs, i);
  }

  lemma {:induction false} FormatsExact(a: MediaCap, pts: seq<int>, maps: seq<(int, Codec)>)
    requires |pts| == |a.codecs| && DistinctCodecs(a.codecs)
    requires forall i | 0 <= i < |maps| :: Supports(a.codecs, maps[i].1.Key())
    ensures Formats(RtpEntries(maps), RtpEntries(Zip(pts, a.codecs)), a.codecs) == FormatsOf(a, pts, maps)
    decreases |maps|
  {
    hide Format, FormatOf, Supports, DistinctCodecs;
    if maps != [] {
      var es := RtpEntries(maps);
      assert es[0].1.Key() == maps[0].1.Key() && es[0].0 == maps[0].0;
      assert es[1..] == RtpEntries(maps[1..]);
      OneFormat(a, pts, maps[0]);
      FormatsExact(a, pts, maps[1..]);
      assert FormatsOf(a, pts, maps) == [FormatOf(a, pts, maps[0])] + FormatsOf(a, pts, maps[1..]);
    }
  }

  /** What both sides should end up with on one line: None when it is refused. */
  ghost predicate LineAgreement(a: MediaCap, b: Option<MediaCap>, ip: string, r: Option<NegotiatedMedia>) {
    if !Accepted(a, b) then r.None?
    else
      && r.Some?
      && r.value.media == a.media && r.value.remoteAddr == ip && r.value.remotePort == b.value.port
      && r.value.direction == AnswerDirection(Some(a.direction), b.value.direction)
      && (r.value.rtcpMux <==> a.rtcpMux && b.value.rtcpMux)
      && FormatsAgree(a, Agreed(a, b.value).value, r.value.formats)
  }

  /** Entry by entry: the answered type to receive, our own offered type to send, the same codec. */
  ghost predicate FormatsAgree(a: MediaCap, maps: seq<(int, Codec)>, formats: seq<NegotiatedFormat>) {
    var pts := AssignPts(a.codecs, a.tePref, 96);
    && pts.Some? && |formats| == |maps|
    && forall j | 0 <= j < |maps| ::
         && formats[j].recvPt == maps[j].0 && formats[j].codec.Key() == maps[j].1.Key()
         && exists i | 0 <= i < |a.codecs| :: formats[j].codec == a.codecs[i] && formats[j].sendPt == pts.value[i]
  }

  lemma FormatsOfAgree(a: MediaCap, pts: seq<int>, maps: seq<(int, Codec)>)
    requires AssignPts(a.codecs, a.tePref, 96) == Some(pts)
    requires forall i | 0 <= i < |maps| :: Supports(a.codecs, maps[i].1.Key())
    ensures FormatsAgree(a, maps, FormatsOf(a, pts, maps))
  {
    hide AssignPts, LastIndex;
    var fs := FormatsOf(a, pts, maps);
    forall j | 0 <= j < |maps|
      ensures fs[j].recvPt == maps[j].0 && fs[j].codec.Key() == maps[j].1.Key()
      ensures exists i | 0 <= i < |a.codecs| :: fs[j].codec == a.codecs[i] && fs[j].sendPt == pts[i]
    {
      var i := LastIndex(a.codecs, maps[j].1.Key());
      assert fs[j] == FormatOf(a, pts, maps[j]);
      assert fs[j].codec == a.codecs[i] && fs[j].sendPt == pts[i];
    }
  }

  lemma MediaFacts(m: MediaCap)
    requires WellFormedMedia(m)
    ensures m.port != 0 && DistinctCodecs(m.codecs) && IsDirection(m.direction)
  {
    hide IsDirection, DistinctCodecs, CompatiblePts, CleanCodec, CleanParams, AssignPts, IsProtoChar;
  }

  lemma NegotiatedLine(a: MediaCap, b: Option<MediaCap>, pts: seq<int>, ip: string, s: Section, ipB: string,
                       offerer: SessionCap)
    requires WellFormedMedia(a) && AssignPts(a.codecs, a.tePref, 96) == Some(pts) && ip != ""
    requires b.Some? ==> WellFormedMedia(b.value)
    requires (if a.media == "audio" then offerer.audio else offerer.video) == Some(a)
    requires AnsweredLine(a, b, s)
    ensures LineAgreement(a, b, ip,
              NegotiateLine(Offered(a, pts, ip), Inherit(Announced(s), Some(ipB), None), Some(ip), offerer))
  {
    hide WellFormedMedia, AssignPts, Agreed, LastIndex, AnswerDirection, IsDirection, Fmtps, FormatsAgree, RtpEntries,
         Zip, Formats, Supports, DistinctCodecs, Keys;
    MediaFacts(a);
    if Accepted(a, b) {
      var maps := Agreed(a, b.value).value;
      MediaFacts(b.value);
      AgreedFrom(a, b.value);
      AnswerDirectionValid(a.direction, b.value.direction);
      forall i | 0 <= i < |maps| ensures Supports(a.codecs, maps[i].1.Key()) {
        KeysSupported(a.codecs, maps[i].1.Key());
      }
      FormatsExact(a, pts, maps);
      FormatsOfAgree(a, pts, maps);
    }
  }

  // ---------- The whole exchange ----------

  /** Offer, parse, answer, parse, negotiate; None if any stage raises. */
  function Exchange(offerer: SessionCap, answerer: SessionCap, offeredAt: int,
                    answeredAt: int): Option<seq<NegotiatedMedia>> {
    var offerText :- OfferText(offerer, offeredAt);
    var offer :- Parse(offerText);
    var answerText :- AnswerText(offer, answerer, answeredAt);
    var answer :- Parse(answerText);
    Some(Negotiate(offer, answer, offerer))
  }

  /** A line is kept exactly when the answerer has that medium and the two share a codec. */
  ghost predicate Shared(a: MediaCap, b: Option<MediaCap>) {
    b.Some? && exists q :: q in Keys(a.codecs) && q in Keys(b.value.codecs)
  }

  /** Only shared codecs appear, and none twice. */
  ghost predicate OnlyShared(a: MediaCap, b: MediaCap, formats: seq<NegotiatedFormat>) {
    && (forall i, j | 0 <= i < j < |formats| :: formats[i].codec.Key() != formats[j].codec.Key())
    && (forall j | 0 <= j < |formats| ::
        formats[j].codec.Key() in Keys(a.codecs) && formats[j].codec.Key() in Keys(b.codecs))
  }

  /** Every shared codec appears, nothing else does, and none appears twice. */
  ghost predicate ExactlyShared(a: MediaCap, b: MediaCap, formats: seq<NegotiatedFormat>) {
    && (forall i, j | 0 <= i < j < |formats| :: formats[i].codec.Key() != formats[j].codec.Key())
    && (forall q :: q in Keys(a.codecs) && q in Keys(b.codecs) <==> exists j | 0 <= j < |formats| ::
        formats[j].codec.Key() == q)
  }

  /** The kept lines, in the offer's order, each with its exact agreement. */
  ghost predicate SessionAgreement(caps: seq<MediaCap>, answerer: SessionCap, ip: string, out: seq<NegotiatedMedia>)
    decreases |caps|
  {
    if caps == [] then out == []
    else
      var a, b := caps[0], LocalMedia(answerer, caps[0].media);
      if Shared(a, b) then
        && out != [] && LineAgreement(a, b, ip, Some(out[0])) && OnlyShared(a, b.value, out[0].formats)
        && (ExactlyShared(a, b.value, out[0].formats) <==> !Clash(a, b.value))
        && SessionAgreement(caps[1..], answerer, ip, out[1..])
      else SessionAgreement(caps[1..], answerer, ip, out)
  }

  lemma CandidateShared(a: MediaCap, b: MediaCap, e: (int, Codec))
    requires WellFormedMedia(b) && Candidates(a, b).Some? && e in Candidates(a, b).value
    ensures e.1.Key() in Keys(a.codecs) && e.1.Key() in Keys(b.codecs)
  {
    hide WellFormedMedia, Candidates, Keys;
    var all := Candidates(a, b).value;
    var i :| 0 <= i < |all| && all[i] == e;
    CandidatesKeys(a, b, e.1.Key());
  }

  lemma AgreedAreCandidates(a: MediaCap, b: MediaCap)
    requires DistinctCodecs(b.codecs) && Candidates(a, b).Some?
    ensures var all, maps := Candidates(a, b).value, Agreed(a, b).value;
      && DistinctMapKeys(maps) && (forall e | e in maps :: e in all) && (maps == [] <==> all == [])
      && (maps != all ==> exists e | e in all :: forall k | k in maps :: k.1.Key() != e.1.Key())
  {
    var all := Candidates(a, b).value;
    CandidatesOnce(a, b);
    hide Candidates, DistinctMapKeys;
    DistinctShort([]);
    UnclaimedFrom([], all);
    UnclaimedKeys([], all);
  }

  ghost predicate Missing(a: MediaCap, b: MediaCap, maps: seq<(int, Codec)>, q: CodecKey) {
    q in Keys(a.codecs) && q in Keys(b.codecs) && forall e | e in maps :: e.1.Key() != q
  }

  /** What the agreed entries say about the shared keys. */
  lemma AgreedKeys(a: MediaCap, b: MediaCap)
    requires WellFormedMedia(b)
    ensures Candidates(a, b).Some? && Agreed(a, b).Some?
    ensures var maps := Agreed(a, b).value;
      && DistinctMapKeys(maps)
      && (forall e | e in maps :: e.1.Key() in Keys(a.codecs) && e.1.Key() in Keys(b.codecs))
      && (maps != [] <==> Shared(a, Some(b)))
      && (Clash(a, b) <==> exists q :: Missing(a, b, maps, q))
  {
    hide WellFormedMedia, DistinctCodecs, Candidates, Agreed, Keys, Clash, DistinctMapKeys, Distinct, AssignPts, Common,
         TypesOf, CleanCodec, CleanParams;
    WellFormedApart(a, b);
    var all, maps := Candidates(a, b).value, Agreed(a, b).value;
    AgreedAreCandidates(a, b);
    AgreedAll(a, b);
    forall e | e in all ensures e.1.Key() in Keys(a.codecs) && e.1.Key() in Keys(b.codecs) { CandidateShared(a, b, e); }
    if all != [] { assert all[0] in all; }
    if q :| q in Keys(a.codecs) && q in Keys(b.codecs) { CandidatesKeys(a, b, q); }
    if maps != all {
      var e :| e in all && forall k | k in maps :: k.1.Key() != e.1.Key();
      assert Missing(a, b, maps, e.1.Key());
    }
    if q :| Missing(a, b, maps, q) {
      CandidatesKeys(a, b, q);
      var i :| 0 <= i < |all| && all[i].1.Key() == q;
      assert all[i] in all && all[i] !in maps;
    }
  }

  lemma AgreementIsShared(a: MediaCap, b: MediaCap, ip: string, r: Option<NegotiatedMedia>)
    requires WellFormedMedia(b) && LineAgreement(a, Some(b), ip, r)
    ensures Shared(a, Some(b)) <==> r.Some?
    ensures r.Some? ==> OnlyShared(a, b, r.value.formats) && (ExactlyShared(a, b, r.value.formats) <==> !Clash(a, b))
  {
    AgreedKeys(a, b);
    hide WellFormedMedia, Agreed, Keys, AssignPts, AnswerDirection, Clash, Shared, FormatsAgree, OnlyShared,
         ExactlyShared, DistinctMapKeys;
    if r.Some? { SharedFormats(a, b, Agreed(a, b).value, r.value.formats); }
  }

  lemma SharedFormats(a: MediaCap, b: MediaCap, maps: seq<(int, Codec)>, formats: seq<NegotiatedFormat>)
    requires FormatsAgree(a, maps, formats) && DistinctMapKeys(maps)
    requires forall e | e in maps :: e.1.Key() in Keys(a.codecs) && e.1.Key() in Keys(b.codecs)
    ensures OnlyShared(a, b, formats)
    ensures ExactlyShared(a, b, formats) <==> !exists q :: Missing(a, b, maps, q)
  {
    hide Keys, AssignPts;
    assert forall i | 0 <= i < |maps| :: formats[i].codec.Key() == maps[i].1.Key();
    forall j | 0 <= j < |formats|
      ensures formats[j].codec.Key() in Keys(a.codecs) && formats[j].codec.Key() in Keys(b.codecs)
    {
      assert maps[j] in maps;
    }
    if q :| Missing(a, b, maps, q) {
      forall j | 0 <= j < |formats| ensures formats[j].codec.Key() != q { assert maps[j] in maps; }
    } else {
      forall q | q in Keys(a.codecs) && q in Keys(b.codecs)
        ensures exists j | 0 <= j < |formats| :: formats[j].codec.Key() == q
      {
        assert !Missing(a, b, maps, q);
        var e :| e in maps && e.1.Key() == q;
        var i :| 0 <= i < |maps| && maps[i] == e;
        assert formats[i].codec.Key() == q;
      }
    }
  }

  /** Parsed lines that read back the given capabilities. */
  ghost predicate OfferedLines(caps: seq<MediaCap>, offered: seq<MediaDesc>, ip: string) {
    && |offered| == |caps|
    && forall i | 0 <= i < |caps| ::
         && WellFormedMedia(caps[i]) && (caps[i].media == "audio" || caps[i].media == "video")
         && AssignPts(caps[i].codecs, caps[i].tePref, 96).Some?
         && offered[i] == Offered(caps[i], AssignPts(caps[i].codecs, caps[i].tePref, 96).value, ip)
  }

  lemma {:induction false} AnswerSectionsExact(caps: seq<MediaCap>, answerer: SessionCap, offered: seq<MediaDesc>,
                                               ip: string)
    requires WellFormed(answerer) && OfferedLines(caps, offered, ip)
    ensures AnswerSections(offered, answerer).Some?
    ensures var secs := AnswerSections(offered, answerer).value;
            |secs| == |caps| && forall i | 0 <= i < |caps| ::
              CleanSection(secs[i]) && AnsweredLine(caps[i], LocalMedia(answerer, caps[i].media), secs[i])
    decreases |caps|
  {
    hide WellFormed, WellFormedMedia, AssignPts, Offered, AnswerSection, CleanSection, AnsweredLine;
    if caps != [] {
      AnswerSectionExact(caps[0], answerer, AssignPts(caps[0].codecs, caps[0].tePref, 96).value, ip);
      AnswerSectionsExact(caps[1..], answerer, offered[1..], ip);
    }
  }

  lemma {:induction false} NegotiatedLines(caps: seq<MediaCap>, offerer: SessionCap, answerer: SessionCap,
                                           offered: seq<MediaDesc>, secs: seq<Section>, ip: string, ipB: string)
    requires WellFormed(answerer) && OfferedLines(caps, offered, ip) && ip != "" && |secs| == |caps|
    requires forall i | 0 <= i < |caps| ::
        (if caps[i].media == "audio" then offerer.audio else offerer.video) == Some(caps[i])
    requires forall i | 0 <= i < |caps| :: AnsweredLine(caps[i], LocalMedia(answerer, caps[i].media), secs[i])
    ensures SessionAgreement(caps, answerer, ip,
              NegotiateLines(offered, InheritAll(AnnouncedAll(secs), Some(ipB), None), Some(ip), offerer))
    decreases |caps|
  {
    hide WellFormed, WellFormedMedia, AssignPts, Offered, AnsweredLine, LocalMedia, NegotiateLine, LineAgreement,
         ExactlyShared, OnlyShared, Clash, Announced, Inherit, Agreed, Shared;
    var answers := InheritAll(AnnouncedAll(secs), Some(ipB), None);
    if caps == [] {
      assert offered == [];
    } else {
      hide SessionAgreement;
      var a, b := caps[0], LocalMedia(answerer, caps[0].media);
      var r := NegotiateLine(offered[0], answers[0], Some(ip), offerer);
      LocalWellFormed(answerer, a);
      NegotiatedLine(a, b, AssignPts(a.codecs, a.tePref, 96).value, ip, secs[0], ipB, offerer);
      LineShared(a, b, ip, r);
      assert answers[1..] == InheritAll(AnnouncedAll(secs[1..]), Some(ipB), None);
      NegotiatedLines(caps[1..], offerer, answerer, offered[1..], secs[1..], ip, ipB);
      AgreementStep(caps, answerer, ip, r, NegotiateLines(offered[1..], answers[1..], Some(ip), offerer));
    }
  }

  lemma LocalWellFormed(answerer: SessionCap, a: MediaCap)
    requires WellFormed(answerer)
    ensures var b := LocalMedia(answerer, a.media); b.Some? ==> WellFormedMedia(b.value) && Agreed(a, b.value).Some?
  {
    var b := LocalMedia(answerer, a.media);
    if b.Some? {
      CommonAllocates(b.value.codecs, Keys(a.codecs), b.value.tePref);
      hide AssignPts, Common, Keys;
    }
  }

  lemma AgreementStep(caps: seq<MediaCap>, answerer: SessionCap, ip: string, r: Option<NegotiatedMedia>,
                      rest: seq<NegotiatedMedia>)
    requires caps != []
    requires var a, b := caps[0], LocalMedia(answerer, caps[0].media);
             && (Shared(a, b) <==> r.Some?)
             && (r.Some? ==>
                   && b.Some? && OnlyShared(a, b.value, r.value.formats) && LineAgreement(a, b, ip, Some(r.value))
                   && (ExactlyShared(a, b.value, r.value.formats) <==> !Clash(a, b.value)))
    requires SessionAgreement(caps[1..], answerer, ip, rest)
    ensures SessionAgreement(caps, answerer, ip, (if r.Some? then [r.value] else []) + rest)
  {
    hide LocalMedia, LineAgreement, ExactlyShared, OnlyShared, Clash, Shared;
    var out := (if r.Some? then [r.value] else []) + rest;
    assert r.Some? ==> out[1..] == rest && out[0] == r.value;
    assert r.None? ==> out == rest;
  }

  lemma LineShared(a: MediaCap, b: Option<MediaCap>, ip: string, r: Option<NegotiatedMedia>)
    requires LineAgreement(a, b, ip, r)
    requires b.Some? ==> WellFormedMedia(b.value) && Agreed(a, b.value).Some?
    ensures Shared(a, b) <==> r.Some?
    ensures r.Some? ==>
              && b.Some? && OnlyShared(a, b.value, r.value.formats) && LineAgreement(a, b, ip, Some(r.value))
              && (ExactlyShared(a, b.value, r.value.formats) <==> !Clash(a, b.value))
  {
    hide WellFormedMedia, Agreed, ExactlyShared, OnlyShared, Clash;
    if b.Some? { AgreementIsShared(a, b.value, ip, r); }
  }

  /** The offer as parsed has the lines of the offerer's capabilities. */
  lemma OfferLines(offerer: SessionCap, offeredAt: int)
    requires WellFormed(offerer)
    ensures OfferText(offerer, offeredAt).Some? && Parse(OfferText(offerer, offeredAt).value).Some?
    ensures var offer := Parse(OfferText(offerer, offeredAt).value).value;
            && OfferedLines(Capabilities(offerer), offer.media, offerer.ip)
            && CleanText(offer.timing) && offer.connection == Some(offerer.ip) && offerer.ip != ""
  {
    hide WellFormed, WellFormedMedia, Parse, OfferText, AssignPts, Offered, Capabilities, CleanText, Origin;
    OfferRoundTrip(offerer, offeredAt);
    CapabilitiesWellFormed(offerer);
    SessionTextClean(offerer);
  }

  lemma SessionTextClean(cap: SessionCap)
    requires WellFormed(cap)
    ensures CleanText(cap.timing) && CleanText("0 0") && cap.ip != ""
  {
    hide WellFormedMedia;
  }

  /** The answer to such an offer parses back to its own sections. */
  lemma AnswerParses(caps: seq<MediaCap>, answerer: SessionCap, offer: Parsed, ip: string, now: int)
    requires WellFormed(answerer) && OfferedLines(caps, offer.media, ip) && CleanText(offer.timing)
    ensures AnswerSections(offer.media, answerer).Some? && AnswerText(offer, answerer, now).Some?
    ensures var secs := AnswerSections(offer.media, answerer).value;
            && |secs| == |caps|
            && (forall i | 0 <= i < |caps| :: AnsweredLine(caps[i], LocalMedia(answerer, caps[i].media), secs[i]))
            && Parse(AnswerText(offer, answerer, now).value).Some?
            && Parse(AnswerText(offer, answerer, now).value).value.media
            == InheritAll(AnnouncedAll(secs), Some(answerer.ip), None)
  {
    AnswerSectionsExact(caps, answerer, offer.media, ip);
    HeaderClean(answerer, offer.timing, now);
    hide WellFormed, OfferedLines, Parse, AnswerSections, Render, CleanSection, AnsweredLine, CleanText, CleanHeader,
         Origin, LocalMedia, AnnouncedAll, InheritAll;
    ParseRender(SessionHeader(answerer, offer.timing, now), AnswerSections(offer.media, answerer).value);
  }

  /**
   Two well-formed parties, one offer, one answer: every stage succeeds, a line survives exactly
   when both have the medium and share a codec, and a surviving line carries only shared codecs,
   each once, paired with the answerer's and the offerer's payload type for that codec; it carries
   all of them if and only if no other shared codec claims the type telephone-event/8000 gets.
   */
  lemma PipelineAgreement(offerer: SessionCap, answerer: SessionCap, offeredAt: int, answeredAt: int)
    requires WellFormed(offerer) && WellFormed(answerer)
    ensures Exchange(offerer, answerer, offeredAt, answeredAt).Some?
    ensures SessionAgreement(Capabilities(offerer), answerer, offerer.ip,
                             Exchange(offerer, answerer, offeredAt, answeredAt).value)
  {
    hide WellFormed, OfferedLines, Parse, OfferText, AnswerText, Capabilities, LocalMedia, AnswerSections, AnsweredLine,
         SessionAgreement, CleanText, NegotiateLines;
    var caps := Capabilities(offerer);
    OfferLines(offerer, offeredAt);
    CapabilitiesPlaced(offerer);
    var offer := Parse(OfferText(offerer, offeredAt).value).value;
    AnswerParses(caps, answerer, offer, offerer.ip, answeredAt);
    NegotiatedLines(caps, offerer, answerer, offer.media, AnswerSections(offer.media, answerer).value, offerer.ip,
                    answerer.ip);
  }

  lemma CapabilitiesPlaced(cap: SessionCap)
    requires WellFormed(cap)
    ensures forall i | 0 <= i < |Capabilities(cap)| ::
              (if Capabilities(cap)[i].media == "audio" then cap.audio else cap.video) == Some(Capabilities(cap)[i])
  {
    hide WellFormedMedia;
  }

  // ---------- Two telephone-event codecs ----------

  function Event(clock: int, pt: Option<int>): Codec { Codec(TELEPHONE_EVENT, clock, 1, [], pt) }

  function EventMedia(first: Option<int>, second: Option<int>): MediaCap {
    MediaCap("audio", "RTP/AVP", "sendrecv", [Event(8000, first), Event(16000, second)], true, 101, 5004)
  }

  /** telephone-event/8000 has a static type, so the other one takes the preference as well. */
  const DROPPING: MediaCap := EventMedia(Some(95), None)

  const KEEPING: MediaCap := EventMedia(None, Some(95))

  lemma EventKey(clock: int, pt: Option<int>)
    ensures Event(clock, pt).Key() == (TELEPHONE_EVENT, clock, 1) && Event(clock, pt).IsTelephoneEvent()
  {
    var t := TELEPHONE_EVENT;
    assert forall i | 0 <= i < |t| :: LowerChar(t[i]) == t[i];
    assert Lower(t) == t;
  }

  lemma EventClean(clock: int, pt: Option<int>)
    requires clock >= 0
    ensures CleanCodec(Event(clock, pt)) && CleanParams(Event(clock, pt).fmtp)
  {
  }

  lemma EventType(e: Codec)
    requires e.IsTelephoneEvent()
    ensures AssignPts([e], 101, 96) == Some([if e.staticPt.Some? then e.staticPt.value else 101])
  {
    hide Lower;
    var pt := if e.staticPt.Some? then e.staticPt.value else 101;
    assert [e][1..] == [];
    assert AssignPt(e, 101, 96) == Some((pt, 96));
    assert [pt] + [] == [pt];
  }

  lemma EventTypes(first: Option<int>, second: Option<int>)
    ensures AssignPts(EventMedia(first, second).codecs, 101, 96)
         == Some([if first.Some? then first.value else 101, if second.Some? then second.value else 101])
  {
    EventKey(8000, first);
    EventKey(16000, second);
    hide Lower;
    var a, b := Event(8000, first), Event(16000, second);
    var pt := if first.Some? then first.value else 101;
    EventType(b);
    assert [a, b][1..] == [b];
    assert AssignPt(a, 101, 96) == Some((pt, 96));
    assert AssignPts([a, b], 101, 96) == Some([pt] + AssignPts([b], 101, 96).value);
    var other := if second.Some? then second.value else 101;
    assert [pt] + [other] == [pt, other];
  }

  lemma EventsWellFormed(first: Option<int>, second: Option<int>)
    requires (first == Some(95) && second == None) || (first == None && second == Some(95))
    ensures WellFormedMedia(EventMedia(first, second))
  {
    EventKey(8000, first);
    EventKey(16000, second);
    EventClean(8000, first);
    EventClean(16000, second);
    EventTypes(first, second);
    assert All("RTP/AVP", IsProtoChar);
    hide Lower, AssignPts, CleanCodec, CleanParams;
  }

  lemma EventsCommon(m: MediaCap, first: Option<int>, second: Option<int>)
    requires m == EventMedia(first, second)
    ensures Common(m.codecs, Keys(m.codecs)) == [Event(16000, second)]
    ensures TelephoneEventShared(m, m) && m.codecs[LastIndex(m.codecs, TE_KEY)] == Event(8000, first)
  {
    EventKey(8000, first);
    EventKey(16000, second);
    var a, b := Event(8000, first), Event(16000, second);
    hide Lower;
    assert m.codecs[..1] == [a] && [a][..0] == [];
    assert m.codecs[0].Key() in Keys(m.codecs) && m.codecs[1].Key() in Keys(m.codecs);
    assert Common([a], Keys(m.codecs)) == [];
    assert LastIndex(m.codecs, TE_KEY) == 0;
  }

  lemma FirstClaims(a: Codec, b: Codec)
    ensures Unclaimed([], [(101, a)] + [(101, b)]) == [(101, a)]
  {
    var all := [(101, a)] + [(101, b)];
    assert all[1..] == [(101, b)] && [(101, b)][1..] == [];
    assert Unclaimed([101], [(101, b)]) == [];
    assert [] + [101] == [101];
  }

  lemma DroppingCandidates()
    ensures Candidates(DROPPING, DROPPING) == Some([(101, Event(8000, Some(95)))] + [(101, Event(16000, None))])
  {
    EventsCommon(DROPPING, Some(95), None);
    EventKey(16000, None);
    hide Common, LastIndex, TelephoneEventShared, Lower, AssignPts, Keys;
    var b := Event(16000, None);
    EventType(b);
    assert Zip([101], [b]) == [(101, b)];
  }

  /** Well-formed on both sides, and yet the answer drops telephone-event/16000, which both share. */
  lemma SharedCodecDropped()
    ensures WellFormedMedia(DROPPING) && Clash(DROPPING, DROPPING)
    ensures Agreed(DROPPING, DROPPING) == Some([(101, Event(8000, Some(95)))])
    ensures (TELEPHONE_EVENT, 16000, 1) in Keys(DROPPING.codecs)
  {
    EventKey(16000, None);
    assert DROPPING.codecs[1] == Event(16000, None);
    hide WellFormedMedia, Common, LastIndex, TelephoneEventShared, Lower, Candidates, Unclaimed;
    EventsWellFormed(Some(95), None);
    EventsCommon(DROPPING, Some(95), None);
    assert Event(16000, None) in [Event(16000, None)];
    DroppingCandidates();
    FirstClaims(Event(8000, Some(95)), Event(16000, None));
  }

  /** The other way round nothing is dropped. */
  lemma SharedCodecsKept()
    ensures WellFormedMedia(KEEPING) && !Clash(KEEPING, KEEPING)
  {
    EventsWellFormed(None, Some(95));
    EventsCommon(KEEPING, None, Some(95));
    hide WellFormedMedia, Common, LastIndex, Lower;
  }
}
