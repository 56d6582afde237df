/** Working out the media session from an offer and its answer. */
module SdpNegotiation {
  import opened Text
  import opened PyDict
  import opened SdpModel
  import opened SdpBuilder

  datatype NegotiatedFormat = NegotiatedFormat(recvPt: int, sendPt: int, codec: Codec)

  datatype NegotiatedMedia = NegotiatedMedia(media: string, remoteAddr: string, remotePort: int,
                                             direction: string, formats: seq<NegotiatedFormat>, rtcpMux: bool)

  /** The first payload type a description gives to a codec. */
  function PtOf(rtpmap: Dict<int, RtpMap>, key: CodecKey): Option<int> {
    if rtpmap == [] then None
    else if rtpmap[0].1.Key() == key then Some(rtpmap[0].0)
    else PtOf(rtpmap[1..], key)
  }

  /** Our own type for the codec: the offered one, or the static one when none was mapped. */
  function SendPt(offered: Dict<int, RtpMap>, codec: Codec, key: CodecKey): Option<int> {
    var pt := PtOf(offered, key);
    if pt.Some? then pt else codec.staticPt
  }

  function Format(pt: int, key: CodecKey, offered: Dict<int, RtpMap>, codecs: seq<Codec>): Option<NegotiatedFormat> {
    if !Supports(codecs, key) then None
    else
      var codec := codecs[LastIndex(codecs, key)];
      var send :- SendPt(offered, codec, key);
      Some(NegotiatedFormat(pt, send, codec))
  }

  function Formats(answered: Dict<int, RtpMap>, offered: Dict<int, RtpMap>, codecs: seq<Codec>): seq<NegotiatedFormat> {
    if answered == [] then []
    else
      var f := Format(answered[0].0, answered[0].1.Key(), offered, codecs);
      (if f.Some? then [f.value] else []) + Formats(answered[1..], offered, codecs)
  }

  /** One line of the result; None when the line is refused or there is no local capability. */
  function NegotiateLine(offer: MediaDesc, answer: MediaDesc, connection: Option<string>,
                         local: SessionCap): Option<NegotiatedMedia> {
    var cap := if offer.media == "audio" then local.audio else local.video;
    if answer.port == 0 || cap.None? then None
    else
      Some(NegotiatedMedia(offer.media, OrElse(offer.connAddr, OrElse(connection, "")), answer.port,
                           OrElse(answer.direction, "sendrecv"),
                           Formats(answer.rtpmap, offer.rtpmap, cap.value.codecs),
                           answer.rtcpMux && offer.rtcpMux))
  }

  function NegotiateLines(offers: seq<MediaDesc>, answers: seq<MediaDesc>, connection: Option<string>,
                          local: SessionCap): seq<NegotiatedMedia> {
    if offers == [] || answers == [] then []
    else
      var m := NegotiateLine(offers[0], answers[0], connection, local);
      (if m.Some? then [m.value] else []) + NegotiateLines(offers[1..], answers[1..], connection, local)
  }

  /** `AdvancedSDPNegotiator.negotiate_from_offer_answer`. */
  function Negotiate(offer: Parsed, answer: Parsed, local: SessionCap): seq<NegotiatedMedia> {
    NegotiateLines(offer.media, answer.media, offer.connection, local)
  }

  method NegotiateFormats(answered: Dict<int, RtpMap>, offered: Dict<int, RtpMap>, codecs: seq<Codec>)
    returns (formats: seq<NegotiatedFormat>)
    ensures formats == Formats(answered, offered, codecs)
  {
    formats := [];
    for i := 0 to |answered|
      invariant formats + Formats(answered[i..], offered, codecs) == Formats(answered, offered, codecs)
    {
      assert answered[i..][0] == answered[i] && answered[i..][1..] == answered[i + 1..];
      ghost var tail := Formats(answered[i + 1..], offered, codecs);
      ghost var before := formats;
      var key := answered[i].1.Key();
      if Supports(codecs, key) {
        var codec := codecs[LastIndex(codecs, key)];
        var sendPt := FindPt(offered, key);
        if sendPt.None? && codec.staticPt.Some? { sendPt := codec.staticPt; }
        if sendPt.Some? {
          formats := formats + [NegotiatedFormat(answered[i].0, sendPt.value, codec)];
        }
      }
      ghost var f := Format(answered[i].0, key, offered, codecs);
      assert formats == before + if f.Some? then [f.value] else [];
      assert before + ((if f.Some? then [f.value] else []) + tail) == formats + tail;
    }
  }

  method FindPt(rtpmap: Dict<int, RtpMap>, key: CodecKey) returns (r: Option<int>)
    ensures r == PtOf(rtpmap, key)
  {
    for i := 0 to |rtpmap|
      invariant PtOf(rtpmap, key) == PtOf(rtpmap[i..], key)
    {
      assert rtpmap[i..][0] == rtpmap[i] && rtpmap[i..][1..] == rtpmap[i + 1..];
      if rtpmap[i].1.Key() == key { return Some(rtpmap[i].0); }
    }
    r := None;
  }

  method NegotiateOne(offer: MediaDesc, answer: MediaDesc, connection: Option<string>, local: SessionCap)
    returns (r: Option<NegotiatedMedia>)
    ensures r == NegotiateLine(offer, answer, connection, local)
  {
    if answer.port == 0 { return None; }
    var dir := OrElse(answer.direction, "sendrecv");
    var addr := OrElse(offer.connAddr, OrElse(connection, ""));
    var mux := answer.rtcpMux && offer.rtcpMux;
    var cap := if offer.media == "audio" then local.audio else local.video;
    if cap.None? { return None; }
    var formats := NegotiateFormats(answer.rtpmap, offer.rtpmap, cap.value.codecs);
    r := Some(NegotiatedMedia(offer.media, addr, answer.port, dir, formats, mux));
  }

  method NegotiateFromOfferAnswer(offer: Parsed, answer: Parsed, local: SessionCap) returns (out: seq<NegotiatedMedia>)
    ensures out == Negotiate(offer, answer, local)
  {
    hide NegotiateLine;
    out := [];
    var i := 0;
    while i < |offer.media| && i < |answer.media|
      invariant 0 <= i <= |offer.media| && i <= |answer.media|
      invariant out + NegotiateLines(offer.media[i..], answer.media[i..], offer.connection, local)
          == Negotiate(offer, answer, local)
    {
      assert offer.media[i..][0] == offer.media[i] && offer.media[i..][1..] == offer.media[i + 1..];
      assert answer.media[i..][0] == answer.media[i] && answer.media[i..][1..] == answer.media[i + 1..];
      ghost var tail := NegotiateLines(offer.media[i + 1..], answer.media[i + 1..], offer.connection, local);
      var m := NegotiateOne(offer.media[i], answer.media[i], offer.connection, local);
      if m.Some? {
        assert out + ([m.value] + tail) == out + [m.value] + tail;
        out := out + [m.value];
      } else {
        assert [] + tail == tail;
      }
      i := i + 1;
    }
    assert NegotiateLines(offer.media[i..], answer.media[i..], offer.connection, local) == [];
  }
}
