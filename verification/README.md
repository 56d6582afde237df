# tiny-sip in Dafny

tiny-sip is a SIP user agent in Python. This project models the parts of it that carry hard
guarantees and proves those guarantees for all inputs and all runs:

- **SDP offer/answer** (`Sdp*.dfy`): building an offer, parsing it, answering it, parsing the
  answer and negotiating, all as text; the payload-type allocator; and the `SDPSession` object
  with its own text form.
- **SIP transactions** (`Transaction*.dfy`, `Manager*.dfy`, `DoubleCleanup.dfy`, `Successors.dfy`,
  `ViaBranch.dfy`): the four transaction kinds with timers, retransmission and deferred cleanup, the
  manager's table keyed by Via branch, and the transactions that a user agent creates to answer challenges.
- **Messages on TCP** (`Utf8.dfy`, `SipMessages.dfy`, `SipRoundTrip.dfy`, `TcpFraming.dfy`,
  `TcpStream.dfy`, `Wire.dfy`, `Delivery.dfy`): header operations, encoding, the incremental framer,
  and the way back through parsing.
- **Digest authentication** (`DigestAuth.dfy`, `NonceCounts.dfy`, `ChallengeChain.dfy`): answering
  challenges, nonce counts over a run, and requests resubmitted again and again.
- **RTP** (`Rtp.dfy`): packet format, sequence numbers and timestamps.

`Text.dfy` and `PyDict.dfy` hold the string, number and dictionary operations of Python that the
code relies on. `dafny verify dfyconfig.toml` checks the whole project.

## How the model reads

Code that updates objects or loops is written as classes and methods with loops. Each such method
is proved equal to a specification function (`View() == F(old(View()), ...)` or `r == F(...)`), and
the theorems are about those functions. Exceptions are `Option.None` (or a named outcome). Clock
readings, fresh identifiers, the hash and the parsing of a challenge header are parameters.

A transaction step ends where the source can be suspended, which is at a send or at an application
callback. What the source does after such a point is its own step: `StartReturns` arms the timers of
a client once its first send is back, `FinishReturns` arms the timer of a final response. Timer tasks
can be cancelled at every point where they wait, so a firing counts at the moment it takes effect.
A timer is pending until it fires or is cancelled. The manager model keeps every transaction ever
created, because one that has left the table can still have timers or suspended calls. It carries the
authenticator of the user agent, so a challenge is answered in the step that reports it, as in the source.
When building the answer raises an exception, the callback never returns: that is a history in which
`FinishReturns` does not come.

Several expected properties do not hold of the code as it is. Each has a theorem that says exactly
when it holds:

- A request can be sent again after a response if the response overtook the return of the first
  send (`TransactionTimers.SilentAfterResponse`), and only then; the same overtaking leaves timers
  pending in states that should have none (`TransactionTimers.TableExact`).
- Timers H, L and M end nothing, so an ACCEPTED transaction need not end by itself
  (`TransactionTimers.TimersAloneExact`).
- A transaction that is ended twice before its cleanup ran has a second cleanup that can remove a
  running transaction from the table (`ManagerCleanup.OwnedExact`, `DoubleCleanup.SecondCleanupRemovesLive`).
- A request whose Via has no branch is sent again after a challenge under the same Via, so without a
  new branch (`ChallengeChain.RetryStep`, `ChallengeChain.UnrenewableStays`).
- A shared codec is missing from the answer when telephone-event/8000 was given its payload type
  (`SdpPipeline.ChooseExact`, `SdpPipeline.SharedCodecDropped`).
- The manager sends even a 100 through the final-response path, so a later 200 is dropped
  (`TransactionSafety.FirstAnswerWins`).
- Printed nonce counts have gaps when a use is counted without being printed
  (`NonceCounts.EmissionsConsecutive`).
- The `-sess` form of HA1 is never used, because the algorithm name is upper-cased first
  (`DigestAuth.SessionNeverUsed`).
- A message without a body ends in one CRLF and is never framed as itself (`Wire.BodylessNeverCut`).
- A negative Content-Length can leave the framing loop without progress
  (`TcpStream.EndsExact`, `Delivery.NegativeLengthStalls`).
- A connection line of a media description is parsed into the session
  (`SdpSessionRoundTrip.RoundTripExact`).
- A media line without formats is printed but not recognised (`SdpGrammar.MediaLineSurvives`).
- A packet with a CSRC count loses payload bytes (`Rtp.PacketRoundTrip`).

Well-formed capabilities (`SdpPipeline.WellFormed`) have at least one codec per medium, distinct codec
keys, distinct static payload types below 96, at most one telephone-event codec without a static type,
a preference that is then no codec's static type, at least one channel, a non-zero port, clean names, and
few enough dynamic codecs for the pool.

Requests handed to the authenticator (`ChallengeChain.Plain`) have header names, header values and a URI
without outer white space, which is how `add_header`, parsing and the request builders leave them.

## Model

| member | source | states |
|---|---|---|
| SdpPipeline.PipelineAgreement | tinysip/sdp.py:631-963 | two well-formed parties: offer, parse, answer, parse and negotiate all succeed; a line survives exactly when both have the medium and share a codec; it carries only shared codec keys, each once, with the answer's and the offer's payload type for that key, rtcp-mux exactly when both set it, the answered port and direction; it carries every shared key iff no other shared codec claims the type of telephone-event/8000 |
| SdpPipeline.OfferRoundTrip | tinysip/sdp.py:523-682 | parsing a built offer recovers origin, name, connection, timing and, per medium, port, profile, payload list, direction, rtcp-mux, rtpmap and fmtp |
| SdpText.ParseRender | tinysip/sdp.py:523-602 | for every clean header and list of media sections, the parser recovers from the printed text exactly what was announced |
| SdpPipeline.ChooseExact | tinysip/sdp.py:707-793 | on a well-formed offer the answerer advertises, in its own order, telephone-event/8000 first and then the shared codecs whose type is free; no shared codec is dropped iff the types it would assign to them are pairwise distinct |
| SdpPipeline.SharedCodecDropped | tinysip/sdp.py:751-793 | telephone-event/8000 with static type 95 and telephone-event/16000 without one: the answer drops the latter, although both sides have it |
| SdpPipeline.SharedCodecsKept | tinysip/sdp.py:751-793 | with the static type on the other one nothing clashes |
| SdpPipeline.AnswerSectionExact | tinysip/sdp.py:696-811 | the answered section for an offered line is determined by the two capabilities and prints cleanly |
| SdpAnswer.AnswerLine | tinysip/sdp.py:696-811 | every offered line keeps its medium; refused with port 0 exactly when there is no local capability or no common codec; otherwise duplicate-free payload types, telephone-event first, the rest in local preference order, direction and rtcp-mux by the rules |
| SdpAnswer.AnswerLineByLine | tinysip/sdp.py:696-811 | one answered line per offered line, in the same order |
| SdpAnswer.PreferenceSort | tinysip/sdp.py:723-727 | the sort orders by local preference, keeps the offer's order among equals and keeps the same members |
| SdpAnswer.ChosenNothing | tinysip/sdp.py:746-797 | nothing is advertised exactly when no offered codec is supported locally |
| SdpAllocation.AllocatorExact | tinysip/sdp.py:645-663 | allocation succeeds iff at most 31 codecs draw from the pool when the telephone-event preference lies in 96..127, at most 32 otherwise; the drawn types are the first of 96..127 without the preference |
| SdpAllocation.AllocatedDistinct | tinysip/sdp.py:645-663 | allocated payload types are pairwise distinct when static types are distinct and below 96 and at most one codec takes the telephone-event preference, which is no static type |
| SdpGrammar.RtpmapLanguage | tinysip/sdp.py:518-518 | the rtpmap matcher accepts exactly the lines of the pattern, with those values |
| SdpGrammar.MediaLanguage | tinysip/sdp.py:516-516 | the media-line matcher accepts exactly the lines of the pattern, with those values |
| SdpGrammar.MediaLineSurvives | tinysip/sdp.py:516-557 | a printed media line is recognised after stripping iff it lists a format |
| SdpGrammar.ReofferVersionAdvances | tinysip/sdp.py:966-973 | the next version is one more than the version any offer or answer was built with |
| SdpParser.ParseText | tinysip/sdp.py:523-602 | the parsing loop computes the specification `Parse`, including the inherited direction and connection |
| SdpParser.ReadFormats | tinysip/sdp.py:555-555 | the payload list is the integers of the words, or the ValueError |
| SdpParser.ReadParams | tinysip/sdp.py:571-582 | the fmtp loop builds the ordered dictionary of the parameters, last value winning |
| SdpParser.ReadAttribute | tinysip/sdp.py:559-592 | a media attribute line changes exactly the field it names |
| SdpParser.SettleMedia | tinysip/sdp.py:599-602 | every media description gets its own, else the session's direction and connection |
| SdpBuilding.BuildOffer | tinysip/sdp.py:631-682 | the building loops produce the text `OfferText`, or fail when the pool runs out |
| SdpBuilding.MediaFormats | tinysip/sdp.py:645-671 | the codec loop assigns the payload types of `AssignPts` and prints each codec's rtpmap and fmtp |
| SdpBuilding.BuildAnswer | tinysip/sdp.py:685-813 | the answering loops produce the text `AnswerText`, or fail when the pool runs out |
| SdpBuilding.AnswerTelephoneEvent | tinysip/sdp.py:751-768 | telephone-event is advertised once, under the local preference, when both sides have it |
| SdpBuilding.AnswerCodecs | tinysip/sdp.py:771-797 | the codec loop adds the supported codecs in order and skips taken payload types |
| SdpBuilding.ReadRemotes | tinysip/sdp.py:709-721 | the remote codecs are those with an rtpmap or a known static type |
| SdpNegotiation.NegotiateFromOfferAnswer | tinysip/sdp.py:908-963 | the negotiation loop computes the specification `Negotiate`, line by line |
| SdpNegotiation.NegotiateFormats | tinysip/sdp.py:936-952 | the format loop pairs each answered type with the offered type of the same key |
| SdpSession.EncodeSession | tinysip/sdp.py:253-287 | the encoding loops produce the text `Encode` |
| SdpSession.MediaText | tinysip/sdp.py:107-125 | the lines of a media description |
| SdpSession.ParseSession | tinysip/sdp.py:293-357 | the parsing loop computes the specification `Parse` |
| SdpSessionRoundTrip.ParseEncode | tinysip/sdp.py:253-357 | for every clean session, what parsing its text gives, media-level connections included |
| SdpSessionRoundTrip.RoundTripExact | tinysip/sdp.py:107-357 | parsing inverts encoding, up to empty formats and zero time to live, iff no media description has its own connection |
| SdpSessionRoundTrip.NormalText | tinysip/sdp.py:107-287 | that normalisation does not change the text |
| SdpSessionRoundTrip.EncodeParse | tinysip/sdp.py:253-357 | encoding what was parsed reproduces the text |
| SipMessages.SipMessage.AddHeader | tinysip/message.py:392-395 | a header with stripped name and value goes last; nothing else changes |
| SipMessages.SipMessage.GetHeader | tinysip/message.py:397-403 | the first value under that name in any letter case |
| SipMessages.SipMessage.SetHeader | tinysip/message.py:405-412 | the first header of that name gets the value as given, else a new one goes last |
| SipMessages.SipMessage.RemoveHeader | tinysip/message.py:414-417 | exactly the headers of that name go |
| SipMessages.SipMessage.SetBody | tinysip/message.py:419-430 | body, Content-Type and Content-Length in UTF-8 bytes are set |
| SipMessages.SipMessage.Encode | tinysip/message.py:462-490 | the encoding loop produces `MessageBytes`, with a Content-Length added when a body has none |
| SipMessages.SipMessage.Parse | tinysip/message.py:344-390 | the parsing loop computes `ParseMessage`, including the ValueError of a bad start line |
| SipMessages.SipMessage.TakeHeaders | tinysip/message.py:367-376 | headers are read up to the first blank line |
| Delivery.GetSet | tinysip/message.py:397-412 | reading back a header that was set |
| Delivery.GetSetOther | tinysip/message.py:397-412 | setting a header leaves every other name as it was |
| Delivery.GetRemove | tinysip/message.py:397-417 | removing a name hides it and no other |
| Utf8.DecodeEncode | tinysip/message.py:489-490 | lenient UTF-8 decoding inverts encoding, whatever bytes follow |
| SipRoundTrip.ParseEncoded | tinysip/message.py:344-490 | parsing the decoded bytes of a clean message gives its start line, all headers with the added Content-Length and stripped values, and its body up to trailing white space |
| TcpFraming.TcpProtocol.DataReceived | tinysip/transport.py:140-172 | one chunk delivers exactly the messages `Frames` cuts from buffer plus chunk and keeps its residue, whenever the loop ends |
| TcpFraming.ContentLength | tinysip/transport.py:152-159 | the first Content-Length line that reads as an integer decides, none means 0 |
| TcpStream.ChunkingIrrelevant | tinysip/transport.py:140-172 | for any chunking, the deliveries and the residue are those of one call on the whole stream |
| TcpStream.FramesConserve | tinysip/transport.py:140-172 | delivered messages and residue concatenate to the bytes received |
| TcpStream.FramesConcat | tinysip/transport.py:140-172 | framing a prefix and then the residue with the rest is framing everything |
| TcpStream.CutProgress | tinysip/transport.py:161-167 | when a round shrinks the buffer and when it leaves it as it was |
| TcpStream.EndsExact | tinysip/transport.py:146-172 | the loop stops after some round iff every round on the way shrinks the buffer |
| Wire.CutEncoded | tinysip/transport.py:146-167 | an encoded message with a body is cut off whole iff its announced length is its body length in bytes |
| Wire.BodylessNeverCut | tinysip/message.py:483-489 | an encoded message without a body is never cut off as itself |
| Wire.EncodedExtent | tinysip/transport.py:146-161 | where the framer sees an encoded message end |
| Delivery.Delivered | tinysip/transport.py:140-172 | any list of sendable messages, encoded, concatenated and chunked in any way, is delivered as exactly those encodings in order with nothing left, and each parses back |
| Delivery.WithBodyAnnounced | tinysip/message.py:419-430 | setting the body always announces the right length |
| Delivery.AutoAnnounced | tinysip/message.py:478-480 | without a Content-Length header, encoding writes the right one |
| Delivery.SetBodyArrives | tinysip/message.py:419-490 | a body that was set arrives with its type |
| Delivery.NegativeLengthStalls | tinysip/transport.py:146-167 | the text `Content-Length: -23` and a blank line leaves the buffer unchanged in every round, so the loop does not end |
| Transactions.SipTransaction.Start | tinysip/fsm.py:415-629 | the first part of `start` for all four kinds |
| Transactions.SipTransaction.StartReturned | tinysip/fsm.py:423-495 | both client timers are armed after the first send |
| Transactions.SipTransaction.ProcessInviteResponse | tinysip/fsm.py:427-475 | an INVITE client's step on a response, Timer B staying armed when leaving PROCEEDING |
| Transactions.SipTransaction.ProcessNonInviteResponse | tinysip/fsm.py:497-524 | a non-INVITE client's step on a response |
| Transactions.SipTransaction.ProcessInviteRequest | tinysip/fsm.py:571-593 | an INVITE server's step on ACK and on a retransmitted request |
| Transactions.SipTransaction.ProcessMessage | tinysip/fsm.py:427-659 | dispatch over the four kinds; a COMPLETED non-INVITE server resends |
| Transactions.SipTransaction.SendProvisionalResponse | tinysip/fsm.py:541-638 | a server's provisional answer |
| Transactions.SipTransaction.SendInviteFinal | tinysip/fsm.py:549-569 | an INVITE server's final answer with Timer L, or H and G |
| Transactions.SipTransaction.SendFinalResponse | tinysip/fsm.py:549-653 | a server's final answer |
| Transactions.SipTransaction.HandleRetransmission | tinysip/fsm.py:300-317 | the hard cap of seven, the resend and the capped exponential interval |
| Transactions.SipTransaction.OnTimerFired | tinysip/fsm.py:269-298 | which timers end, which retransmit, and that H, L and M do neither |
| TransactionSafety.RunRank | tinysip/fsm.py:226-245 | no run lowers the state rank or swaps states of one rank; TERMINATED is absorbing |
| TransactionSafety.RunReportsOnce | tinysip/fsm.py:427-524 | over every run at most one final response is reported and nothing after it |
| TransactionSafety.RunBounded | tinysip/fsm.py:300-317 | over every run a client sends its request at most eight times |
| TransactionSafety.FirstAnswerWins | tinysip/fsm.py:943-949 | the first answer of the application settles a server; later answers are dropped in every continuation |
| TransactionTimers.TableFromStart | tinysip/fsm.py:415-659 | over every run in turn from a new transaction, the state fixes which timers may and must be pending; A and E only in TRYING and G only in COMPLETED, until cleanup |
| TransactionTimers.RunTable | tinysip/fsm.py:415-659 | the same from every transaction that fits the table |
| TransactionTimers.TableExact | tinysip/fsm.py:415-524 | after a step the pending timers fit the state in every continuation iff no response overtakes the return of the first send |
| TransactionTimers.OvertakenArms | tinysip/fsm.py:415-524 | for which kinds and statuses an overtaking response leads to a forbidden timer: at once, except for a final response to a non-INVITE client, and after cleanup for that one too |
| TransactionTimers.CleanedUpSilent | tinysip/fsm.py:393-398 | a cleaned-up transaction sends nothing more in any continuation |
| TransactionTimers.SilentAfterResponse | tinysip/fsm.py:262-524 | after its first response of status 100 or more a client never sends its request again, iff its first send had returned |
| TransactionTimers.ConfirmedSilent | tinysip/fsm.py:571-593 | a CONFIRMED INVITE server sends nothing more in any continuation |
| TransactionTimers.TimersTerminate | tinysip/fsm.py:285-317 | with a decisive timer pending every timer-only run ends in TERMINATED within a fixed number of firings and never gets stuck |
| TransactionTimers.TimersAloneExact | tinysip/fsm.py:285-298 | timers alone can end a transaction iff one of A, B, D, E, F, G, I, J, K is pending |
| TransactionTimers.EndingStates | tinysip/fsm.py:415-659 | clients in TRYING or PROCEEDING and every COMPLETED or CONFIRMED transaction have such a timer |
| TransactionTiming.SilentPeer | tinysip/fsm.py:300-317 | against a silent peer the k-th retransmission leaves at T1 plus the capped intervals, one send per firing |
| TransactionTiming.SilentPeerEnds | tinysip/fsm.py:285-317 | the firing that ends it comes exactly at min(64 T1, T1 + sum of min(T2, 2^k T1), k = 1..7) |
| TransactionTiming.SilentPeerGivesUp | tinysip/fsm.py:285-317 | nine firings suffice |
| TransactionTiming.DefaultLimit | tinysip/fsm.py:81-88 | with T2 = 8 T1 that is 47 T1 |
| TransactionTiming.ProvisionalPeer | tinysip/fsm.py:285-290 | a client that gets only provisional responses has ended by 64 T1 |
| TransactionTiming.StartUnanswered | tinysip/fsm.py:415-425 | a started client is in the situation both bounds speak about |
| ViaBranch.BranchSet | tinysip/auth.py:227-233 | replacing the branch of a Via that has one makes the new value the one that is read |
| TransactionManagers.TransactionManager.CreateClientTransaction | tinysip/fsm.py:858-882 | one new client transaction under its id, none when the id is taken |
| TransactionManagers.TransactionManager.CreateServerTransaction | tinysip/fsm.py:884-909 | one new server transaction, or the request goes to the one there |
| TransactionManagers.TransactionManager.ProcessRequest | tinysip/fsm.py:921-937 | an ACK goes to the transaction of its branch, everything else to server creation |
| TransactionManagers.TransactionManager.ProcessResponse | tinysip/fsm.py:911-919 | a response goes to the transaction of its branch; a challenge that one reports is handled at once with the authenticator |
| TransactionManagers.TransactionManager.HandleAuthenticationChallenge | tinysip/fsm.py:1215-1290 | the reporting transaction is looked up, the authenticator answers for its request, and a new request goes out in a new client transaction |
| TransactionManagers.TransactionManager.SendResponse | tinysip/fsm.py:943-949 | an answer goes through the final-response path of a server transaction |
| TransactionManagers.TransactionManager.CleanupTransaction | tinysip/fsm.py:951-955 | the entry under the id goes, with the timers of the transaction cleaned up |
| ManagerSafety.HistorySound | tinysip/fsm.py:822-955 | over every history: entries are filed under their own id, each server transaction hands its request to the application exactly once, a TERMINATED entry has a cleanup to come, no transaction has two successors |
| ManagerCleanup.OncePerLifetime | tinysip/fsm.py:884-937 | while an id stays in the table no other transaction is created for it and its request is handed over once |
| Successors.ChallengeAnswered | tinysip/fsm.py:1215-1290 | at every point of every history the handler finds the transaction that reports a challenge, with its request; exactly one transaction is created, the only successor of that one, if the authenticator makes a request and its id is free, and none otherwise |
| Successors.Generations | tinysip/fsm.py:988-1290 | in every history, after k successors: CSeq of the first request plus k, one Via whose branch is the transaction's id iff the first Via could be renewed, all other headers, body and kind the same; each link carries the credentials that answer the very challenge the one before reported |
| Successors.HistoryLineage | tinysip/fsm.py:988-1290 | what every history keeps: each successor sends the request of the one it succeeds, once more retried |
| ManagerCleanup.OwnedExact | tinysip/fsm.py:243-245 | over every history, all cleanups are aimed at their own entries all the way iff no timer ever ends a transaction a second time |
| ManagerCleanup.CleanupRemovesOwn | tinysip/fsm.py:951-955 | after every history without a second ending, a cleanup removes the entry of its own terminated transaction and no other |
| DoubleCleanup.SecondCleanupRemovesLive | tinysip/fsm.py:393-524 | the history that fails: OPTIONS sent, 100, 200 and Timer F at its deadline before the cleanup; the request sent again between the two cleanups is in TRYING and out of the table, and its responses find no transaction |
| DigestAuth.DigestAuthentication.GetNonceCount | tinysip/auth.py:156-162 | the count of that nonce goes up by one and is returned |
| DigestAuth.DigestAuthentication.GenerateAuthorizationHeader | tinysip/auth.py:43-84 | the header text and the new counts; nothing counted without credentials, counted without a header for an unsupported algorithm |
| DigestAuth.DigestAuthentication.HandleAuthenticationChallenge | tinysip/auth.py:164-197 | which responses are answered |
| DigestAuth.DigestAuthentication.CreateAuthenticatedRequest | tinysip/auth.py:199-250 | the resubmitted request, built header by header |
| DigestAuth.SessionNeverUsed | tinysip/auth.py:119-129 | HA1 is always the plain hash of user, realm and password |
| NonceCounts.HeadersCarryCounts | tinysip/auth.py:71-81 | the k-th Authorization value printed for a nonce ends with the k-th count, eight hexadecimal digits wide, and its client nonce |
| NonceCounts.EmissionsRise | tinysip/auth.py:43-84 | printed counts of a nonce strictly increase from above its count so far |
| NonceCounts.EmissionsConsecutive | tinysip/auth.py:43-84 | they are consecutive iff no use with an unsupported algorithm or without qop comes before one that prints |
| NonceCounts.OtherNoncesIrrelevant | tinysip/auth.py:156-162 | challenges with other nonces do not affect them |
| NonceCounts.HexRead | tinysip/auth.py:80-81 | the printed count determines the number |
| ChallengeChain.AnsweredChain | tinysip/auth.py:199-250 | after the authenticator answered k challenges: CSeq raised by k; one Via, with the last branch iff the first Via could be renewed; per kind of credentials asked for one header, holding the answer to the last response that asked; all other headers unchanged in order, method, URI and body kept |
| ChallengeChain.RetryStep | tinysip/auth.py:209-250 | one challenge: it fails iff the CSeq number is none; otherwise CSeq, Via and credentials move on as above, with a new branch iff there was no Via or it had a branch |
| ChallengeChain.UnrenewableStays | tinysip/auth.py:227-233 | a request whose Via has no branch keeps that Via through every chain of challenges |
| Rtp.UnpackPack | tinysip/media/rtp.py:22-54 | unpacking a packed header gives it with each field cut to its width |
| Rtp.PackUnpack | tinysip/media/rtp.py:22-54 | packing an unpacked header gives the first twelve bytes back |
| Rtp.PacketRoundTrip | tinysip/media/rtp.py:62-69 | the payload survives iff the CSRC count is zero modulo 16 or the payload is empty |
| Rtp.RtpSession.SendPacket | tinysip/media/rtp.py:88-104 | one datagram and the next sequence number and timestamp, or the error of an unbound session |
| Rtp.SeriesExact | tinysip/media/rtp.py:88-104 | the k-th datagram decodes to sequence number k and the sum of the earlier increments, modulo their widths |
| Rtp.SequenceNumbersDistinct | tinysip/media/rtp.py:103-103 | two packets share a sequence number iff they are a multiple of 65536 apart |

## Left out

- Sockets, `Transport` start, send and stop, and `tinysip/dns.py`: input and output without a deep property.
- Logging, ladder diagrams, `tinysip/client.py`, call-flow rendering and the examples: user interface.
- `tinysip/media/codecs.py`, `dtmf.py` and `audio.py`: tables over small finite domains, floating-point synthesis and device calls.
- `DialogManager`: few transitions, and the user agent looks dialogs up by transaction id while they are stored under Call-ID and tag.
- `SDPNegotiator`, `SDPSession.create_answer` and the convenience constructors: simplified duplicates of the modelled answerer.
- `SIPURI` parsing, `SIPBody` objects holding a session, `create_response` and the user agent's request builders: the printer returns raw text, so they would add easy members.
- Parsing of a challenge header and the hash functions are parameters; the client nonce and the new branch are inputs.
- Transport errors in a transaction: a failed send only logs and continues, which is the step of a send that returned.
- Header objects are values, so two messages sharing one mutable header object are not modelled; the source does not share them.
- Letter case is ASCII: `lower`, `upper` and the case-insensitive pattern of the connection line agree with Python on ASCII text. Decimal digits are ASCII, and the length limit of `int()` on very long numerals is not modelled.
- Two RTP sends that overlap: the model sends one packet after the other.
- TcpFraming.TcpProtocol.DataReceived: requires that the source's loop ends on this buffer, because a method must end; `TcpStream.EndsExact` says when that is, and `Delivery.NegativeLengthStalls` gives a buffer on which it does not.
- TcpStream.ChunkingIrrelevant: requires announced lengths of at least zero in the stream, because with a negative one the slice can count from the end of what has arrived so far.
- Successors.Generations: requires requests without outer white space in their headers and challenges that name their algorithm without outer white space, as the builders and the challenge pattern make them.
- TransactionTiming.SilentPeer: the clock fires timers exactly at their deadlines; scheduling delay of the event loop is not modelled.
- Timer tasks waiting in the timeout callback are not a separate state, because cancelling works there as it does while they sleep.
