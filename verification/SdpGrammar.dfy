/**
 The matchers against the languages they stand for: each accepts exactly the lines its regular
 expression describes and returns the values of the groups.
 */
module SdpGrammar {
  import opened Text
  import opened SdpModel
  import opened SdpParser
  import opened SdpText
  import opened SdpBuilder

  ghost predicate Nonempty(s: string, p: char -> bool) { s != "" && All(s, p) }

  // ---------- a=rtpmap ----------

  /** `<clock>` or `<clock>/<channels>`, with the numbers it denotes. */
  ghost predicate RateShape(s: string, clock: int, channels: int, c: string, ch: string) {
    && Nonempty(c, IsDigit) && clock == NatVal(c)
    && if ch == "" then s == c && channels == 1
       else All(ch, IsDigit) && s == c + ("/" + ch) && channels == NatVal(ch)
  }

  ghost predicate RtpmapShape(ln: string, m: RtpMap, pt: string, ws: string, rate: string) {
    && Nonempty(pt, IsDigit) && m.pt == NatVal(pt) && Nonempty(ws, IsSpace) && Nonempty(m.encoding, IsEncodingChar)
    && ln == "a=rtpmap:" + (pt + (ws + (m.encoding + ("/" + rate))))
    && exists c, ch :: RateShape(rate, m.clock, m.channels, c, ch)
  }

  lemma RateLanguage(s: string, clock: int, channels: int)
    ensures (exists c, ch :: RateShape(s, clock, channels, c, ch)) <==>
            MatchRate(s).Some? && MatchRate(s).value == (clock, channels)
  {
    if MatchRate(s).Some? && MatchRate(s).value == (clock, channels) {
      var (c, r) := Many1(IsDigit, s).value;
      if r == "" {
        assert s == c;
        assert RateShape(s, clock, channels, c, "");
      } else {
        var (ch, _) := Many1(IsDigit, Eat("/", r).value).value;
        assert s == c + ("/" + ch);
        assert RateShape(s, clock, channels, c, ch);
      }
    }
    forall c, ch | RateShape(s, clock, channels, c, ch)
      ensures MatchRate(s).Some? && MatchRate(s).value == (clock, channels)
    {
      RateComplete(s, clock, channels, c, ch);
    }
  }

  lemma RateComplete(s: string, clock: int, channels: int, c: string, ch: string)
    requires RateShape(s, clock, channels, c, ch)
    ensures MatchRate(s).Some? && MatchRate(s).value == (clock, channels)
  {
    if ch == "" {
      assert c + "" == c;
      Many1Concat(IsDigit, c, "");
    } else {
      Many1Concat(IsDigit, c, "/" + ch);
      EatConcat("/", ch);
      assert ch + "" == ch;
      Many1Concat(IsDigit, ch, "");
    }
    hide Many1, Eat;
  }

  /** The rtpmap matcher accepts exactly the lines of that shape, with those values. */
  lemma RtpmapLanguage(ln: string, m: RtpMap)
    ensures MatchRtpmap(ln) == Some(m) <==> exists pt, ws, rate :: RtpmapShape(ln, m, pt, ws, rate)
  {
    if MatchRtpmap(ln) == Some(m) { RtpmapSound(ln, m); }
    forall pt, ws, rate | RtpmapShape(ln, m, pt, ws, rate) ensures MatchRtpmap(ln) == Some(m) {
      RtpmapComplete(ln, m, pt, ws, rate);
    }
    hide MatchRtpmap, RtpmapShape;
  }

  lemma FieldSplits(p: char -> bool, s: string) returns (ws: string)
    requires Field(p, s).Some?
    ensures var (f, r) := Field(p, s).value;
            Nonempty(f, p) && Nonempty(ws, IsSpace) && s == f + (ws + r) && (r == "" || NotSpace(r[0]))
  {
    var (f, rest) := Many1(p, s).value;
    var (w, r) := Many1(IsSpace, rest).value;
    hide Many1;
    ws := w;
  }

  lemma RtpmapSound(ln: string, m: RtpMap)
    requires MatchRtpmap(ln) == Some(m)
    ensures exists pt, ws, rate :: RtpmapShape(ln, m, pt, ws, rate)
  {
    hide Field, Many1, MatchRate, Nonempty;
    var r0 := Eat("a=rtpmap:", ln).value;
    var ws := FieldSplits(IsDigit, r0);
    var (pt, r1) := Field(IsDigit, r0).value;
    var (enc, r2) := Many1(IsEncodingChar, r1).value;
    var rate := Eat("/", r2).value;
    assert r2 == "/" + rate;
    RateLanguage(rate, m.clock, m.channels);
    Many1Nonempty(IsEncodingChar, r1);
    hide RateShape;
    assert RtpmapShape(ln, m, pt, ws, rate);
  }

  lemma Many1Nonempty(p: char -> bool, s: string)
    requires Many1(p, s).Some?
    ensures Nonempty(Many1(p, s).value.0, p)
  {
  }

  lemma StartsSolid(a: string, b: string, p: char -> bool)
    requires Nonempty(a, p) && forall c :: p(c) ==> NotSpace(c)
    ensures NotSpace((a + b)[0])
  {
    hide IsSpace;
    assert (a + b)[0] == a[0];
  }

  lemma RtpmapComplete(ln: string, m: RtpMap, pt: string, ws: string, rate: string)
    requires RtpmapShape(ln, m, pt, ws, rate)
    ensures MatchRtpmap(ln) == Some(m)
  {
    hide MatchRate, RateShape, Many1, Field, Eat;
    RateLanguage(rate, m.clock, m.channels);
    var r2 := "/" + rate;
    var r1 := m.encoding + r2;
    assert Field(IsDigit, pt + (ws + r1)) == Some((pt, r1)) by {
      assert IsSpace(ws[0]);
      StartsSolid(m.encoding, r2, IsEncodingChar);
      FieldConcatWs(IsDigit, pt, ws, r1);
    }
    assert Many1(IsEncodingChar, r1) == Some((m.encoding, r2)) by { Many1Concat(IsEncodingChar, m.encoding, r2); }
    hide Nonempty;
    EatConcat("/", rate);
    EatConcat("a=rtpmap:", pt + (ws + r1));
  }

  // ---------- m= ----------

  ghost predicate MediaShape(ln: string, media: string, port: string, proto: string, fmts: string, w1: string,
                             w2: string, w3: string) {
    && Nonempty(media, IsAlpha) && Nonempty(port, IsDigit) && Nonempty(proto, IsProtoChar)
    && Nonempty(w1, IsSpace) && Nonempty(w2, IsSpace) && Nonempty(w3, IsSpace)
    && (fmts == "" || NotSpace(fmts[0]))
    && ln == "m=" + (media + (w1 + (port + (w2 + (proto + (w3 + fmts))))))
  }

  /** The media-line matcher accepts exactly the lines of that shape. */
  lemma MediaLanguage(ln: string, media: string, port: nat, proto: string, fmts: string)
    ensures MatchMedia(ln) == Some((media, port, proto, fmts)) <==>
            exists p, w1, w2, w3 :: MediaShape(ln, media, p, proto, fmts, w1, w2, w3) && port == NatVal(p)
  {
    if MatchMedia(ln) == Some((media, port, proto, fmts)) { MediaSound(ln); }
    forall p, w1, w2, w3 | MediaShape(ln, media, p, proto, fmts, w1, w2, w3) && port == NatVal(p)
      ensures MatchMedia(ln) == Some((media, port, proto, fmts))
    {
      MediaComplete(ln, media, p, proto, fmts, w1, w2, w3);
    }
    hide MatchMedia, MediaShape;
  }

  lemma MediaSound(ln: string)
    requires MatchMedia(ln).Some?
    ensures var (media, port, proto, fmts) := MatchMedia(ln).value;
            exists p, w1, w2, w3 :: MediaShape(ln, media, p, proto, fmts, w1, w2, w3) && port == NatVal(p)
  {
    hide Field, Nonempty;
    var r0 := Eat("m=", ln).value;
    var w1 := FieldSplits(IsAlpha, r0);
    var (media, r1) := Field(IsAlpha, r0).value;
    var w2 := FieldSplits(IsDigit, r1);
    var (p, r2) := Field(IsDigit, r1).value;
    var w3 := FieldSplits(IsProtoChar, r2);
    var (proto, fmts) := Field(IsProtoChar, r2).value;
    assert MediaShape(ln, media, p, proto, fmts, w1, w2, w3);
  }

  lemma MediaComplete(ln: string, media: string, p: string, proto: string, fmts: string, w1: string, w2: string,
                      w3: string)
    requires MediaShape(ln, media, p, proto, fmts, w1, w2, w3)
    ensures MatchMedia(ln) == Some((media, NatVal(p), proto, fmts))
  {
    var r2 := proto + (w3 + fmts);
    var r1 := p + (w2 + r2);
    assert IsSpace(w1[0]) && IsSpace(w2[0]) && IsSpace(w3[0]);
    assert NotSpace(r1[0]) by { assert r1[0] == p[0] && IsDigit(p[0]); }
    assert NotSpace(r2[0]) by { assert r2[0] == proto[0] && IsProtoChar(proto[0]); }
    assert Field(IsProtoChar, r2) == Some((proto, fmts)) by { FieldConcatWs(IsProtoChar, proto, w3, fmts); }
    assert Field(IsDigit, r1) == Some((p, r2)) by { FieldConcatWs(IsDigit, p, w2, r2); }
    assert Field(IsAlpha, media + (w1 + r1)) == Some((media, r1)) by { FieldConcatWs(IsAlpha, media, w1, r1); }
    EatConcat("m=", media + (w1 + r1));
    hide Field, Eat, Nonempty;
  }

  // ---------- A printed media line and the parser ----------

  /**
   A printed media line is recognised once stripped exactly when it lists a format: without
   codecs the line ends in a space, stripping removes it, and the expression no longer matches.
   */
  lemma MediaLineSurvives(media: string, port: int, proto: string, fmts: seq<int>)
    requires Nonempty(media, IsAlpha) && port >= 0 && Nonempty(proto, IsProtoChar)
    requires forall i | 0 <= i < |fmts| :: fmts[i] >= 0
    ensures MatchMedia(Strip(MediaLine(media, port, proto, fmts))).Some? <==> fmts != []
  {
    hide MediaLine, MatchMedia, Strip, IsLine;
    if fmts != [] {
      MediaLineIsLine(media, port, proto, fmts);
      StripLine(MediaLine(media, port, proto, fmts));
      MediaLineMatches(media, port, proto, fmts);
    } else {
      EmptyMediaLine(media, port, proto);
    }
  }

  lemma StrippedEmptyLine(media: string, port: string, proto: string)
    requires Nonempty(proto, IsProtoChar)
    ensures var t := "m=" + (media + (" " + (port + (" " + proto))));
            Strip("m=" + (media + (" " + (port + (" " + (proto + (" " + ""))))))) == t
  {
    var t := "m=" + (media + (" " + (port + (" " + proto))));
    assert t[|t| - 1] == proto[|proto| - 1] && IsProtoChar(proto[|proto| - 1]);
    assert t[0] == 'm';
    assert Trim(t) && All(" ", IsSpace);
    hide Trim, IsSpace, Nonempty, All;
    assert "m=" + (media + (" " + (port + (" " + (proto + (" " + "")))))) == t + " ";
    StripPad(t, " ");
  }

  lemma NoField(proto: string)
    requires Nonempty(proto, IsProtoChar)
    ensures Field(IsProtoChar, proto).None?
  {
    assert Many1(IsProtoChar, proto) == Some((proto, "")) by {
      assert proto + "" == proto;
      Many1Concat(IsProtoChar, proto, "");
    }
  }

  lemma NoFormatsNoMatch(media: string, p: string, proto: string)
    requires Nonempty(media, IsAlpha) && Nonempty(p, IsDigit) && Nonempty(proto, IsProtoChar)
    ensures MatchMedia("m=" + (media + (" " + (p + (" " + proto))))).None?
  {
    var r1 := p + (" " + proto);
    assert NotSpace(r1[0]) && NotSpace(proto[0]) by { assert r1[0] == p[0] && IsDigit(p[0]) && IsProtoChar(proto[0]); }
    hide Field, Eat, IsSpace;
    EatConcat("m=", media + (" " + r1));
    FieldConcat(IsAlpha, media, r1);
    FieldConcat(IsDigit, p, proto);
    NoField(proto);
    hide Nonempty;
  }

  lemma EmptyMediaLine(media: string, port: int, proto: string)
    requires Nonempty(media, IsAlpha) && port >= 0 && Nonempty(proto, IsProtoChar)
    ensures MatchMedia(Strip(MediaLine(media, port, proto, []))).None?
  {
    IntStrDigits(port);
    assert Join(" ", IntStrs([])) == "";
    hide IntStr, Strip, MatchMedia, Join;
    StrippedEmptyLine(media, IntStr(port), proto);
    NoFormatsNoMatch(media, IntStr(port), proto);
  }

  // ---------- Re-offers ----------

  /** `next_reoffer_version`: one more than the third field, or the clock when there is none. */
  function NextReofferVersion(origin: string, now: int): int {
    var parts := SplitWs(origin);
    if |parts| > 2 && ParseInt(parts[2]).Some? then ParseInt(parts[2]).value + 1 else now
  }

  /** The version counter moves on by one from the origin any offer or answer was built with. */
  lemma ReofferVersionAdvances(user: string, ip: string, version: int, builtAt: int, now: int)
    requires IsWord(user) && IsWord(ip)
    ensures NextReofferVersion(Origin(user, ip, version, builtAt), now) == version + 1
  {
    var words := [user, IntStr(builtAt), IntStr(version), "IN", "IP4", ip];
    IntStrIsWord(builtAt);
    IntStrIsWord(version);
    assert IsWord("IN") && IsWord("IP4");
    assert forall i | 0 <= i < |words| :: IsWord(words[i]);
    JoinSix(user, IntStr(builtAt), IntStr(version), "IN", "IP4", ip);
    hide IntStr, IsWord, Join, SplitWs, ParseInt;
    SplitWsJoin(words);
    ParseIntStr(version);
  }

  lemma JoinSix(a: string, b: string, c: string, d: string, e: string, f: string)
    ensures Join(" ", [a, b, c, d, e, f]) == a + (" " + (b + (" " + (c + (" " + (d + (" " + (e + (" " + f)))))))))
  {
    assert [a, b, c, d, e, f][1..] == [b, c, d, e, f];
    assert [b, c, d, e, f][1..] == [c, d, e, f];
    assert [c, d, e, f][1..] == [d, e, f];
    assert [d, e, f][1..] == [e, f];
    assert [e, f][1..] == [f];
    assert Join(" ", [e, f]) == e + (" " + f);
    assert Join(" ", [d, e, f]) == d + (" " + (e + (" " + f)));
    assert Join(" ", [c, d, e, f]) == c + (" " + (d + (" " + (e + (" " + f)))));
  }
}
