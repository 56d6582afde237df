/** Codecs, capabilities and parsed session descriptions, as the offer/answer code passes them around. */
module SdpModel {
  import opened Text
  import opened PyDict

  type Params = Dict<string, string>

  /** What two parties compare to decide that they mean the same codec. */
  type CodecKey = (string, int, int)

  datatype Codec = Codec(name: string, clock: int, channels: int, fmtp: Params, staticPt: Option<int>) {
    function Key(): CodecKey { (Lower(name), clock, channels) }
    predicate IsTelephoneEvent() { Lower(name) == TELEPHONE_EVENT }
    /** Takes its payload type from the pool 96..127. */
    predicate FromPool() { staticPt.None? && !IsTelephoneEvent() }
    /** Takes the telephone-event preference as its payload type. */
    predicate TakesPreference() { staticPt.None? && IsTelephoneEvent() }
  }

  const TELEPHONE_EVENT: string := "telephone-event"
  const TE_KEY: CodecKey := (TELEPHONE_EVENT, 8000, 1)

  datatype MediaCap = MediaCap(media: string, profile: string, direction: string, codecs: seq<Codec>,
                               rtcpMux: bool, tePref: int, port: int)

  datatype SessionCap = SessionCap(originUser: string, ip: string, sessionName: string, version: int,
                                   timing: string, audio: Option<MediaCap>, video: Option<MediaCap>)

  datatype RtpMap = RtpMap(pt: int, encoding: string, clock: int, channels: int) {
    function Key(): CodecKey { (Lower(encoding), clock, channels) }
  }

  datatype MediaDesc = MediaDesc(media: string, port: int, proto: string, fmts: seq<int>,
                                 connAddr: Option<string>, direction: Option<string>,
                                 rtpmap: Dict<int, RtpMap>, fmtp: Dict<int, Params>, rtcpMux: bool)

  datatype Parsed = Parsed(origin: string, sessionName: string, connection: Option<string>,
                           timing: string, media: seq<MediaDesc>)

  ghost predicate Distinct<T>(s: seq<T>) {
    forall i, j | 0 <= i < j < |s| :: s[i] != s[j]
  }

  /** Python's truth of an optional string: absent and empty both count as missing. */
  function OrElse(a: Option<string>, b: string): string {
    if a.Some? && a.value != "" then a.value else b
  }
}
