# A verified model of mediasoup's control plane

mediasoup is a selective forwarding unit: a worker process forwards RTP and SCTP traffic, and a control
plane, written once in TypeScript and once in Rust, decides what is forwarded where. This project models the
parts of the control plane, and of the worker's bookkeeping, whose correctness spans several functions or a
whole run, and proves what they promise.

Every file is one module.

| file | models |
|---|---|
| `Common.dfy` | options, results and order-preserving filters |
| `Rtp.dfy` | codecs, capabilities, RTP parameters, codec matching |
| `RouterCapabilities.dfy` | payload-type allocation for a router |
| `ProducerMapping.dfy` | mapping a producer's payload types and encodings to the router's |
| `Consumable.dfy` | the parameters a router derives from a producer |
| `PipeHops.dfy` | pipe consumers, and piping through any number of routers |
| `UselessRtx.dfy` | removing useless RTX codecs, in both of its versions |
| `Scalability.dfy` | scalability modes |
| `Consumer.dfy` | `canConsume` and consumer parameters |
| `Framing.dfy` | length-prefixed frames over arbitrary chunks |
| `Channel.dfy` | the request channel to a worker |
| `PayloadChannel.dfy` | notifications made of a header frame and a payload frame |
| `Lifecycle.dfy` | the close cascade and the producer index of routers |
| `PipePairs.dfy` | sharing pipe transport pairs between routers |
| `StreamIds.dfy` | SCTP stream ids of data consumers |
| `Associations.dfy` | SCTP association ids and the periodic checker |
| `Time.dfy` | wrapping RTP timestamps, NTP time |
| `Fingerprint.dfy` | text form of DTLS fingerprints |

Code that works by changing state is modelled by methods and classes. Each such method is tied to a
specification function of the old state, and what holds over every run is proved of these functions. What the
code draws at random, reads from a clock or gets from a library is a parameter: SSRC bases, the JSON parser,
the H264 profile comparison, the outcome of a request, and the quotient that a double division yields.

Where the code does not do what one would expect, the model follows the code, and the exact condition under
which the expectation holds is proved:

- Frames: a payload of more than `PAYLOAD_MAX_LEN - 4` bytes is never delivered, because the limit is applied to
  the buffer with the length prefix in it (`Framing.DeliveredExactly`).
- Payload channel: discarding a full buffer leaves an open notification open. What arrives from then on has its
  right effect if and only if none was open (`PayloadChannel.DiscardMispairs`); `PayloadChannel.OverrunOnNewChannel`
  is such a run.
- Mapping a producer's codecs panics in Rust, and throws a `TypeError` in TypeScript, when an RTX codec names an RTX
  codec that does not come before it (`ProducerMapping.MapErrorExactly`); `ProducerMapping.SelfAptPanics` is an RTX
  codec that names itself.
- Enabling RTX can make a consumer impossible, if and only if a useful RTX codec stands before every supported media
  codec (`Consumer.RtxDecidesExactly`). With a compatibility of H264 profiles that is symmetric and transitive this
  never happens on the codecs a router derives (`Consumer.RtxNeverDecidesOnBlocks`); without, it may
  (`Consumer.RtxMayDecide`).
- `canConsume` refuses exactly those endpoints, of the ones a consumer can be made for, that support some RTX
  codec of the producer before any of its media codecs (`Consumer.RefusedExactly`); `Consumer.CanConsumeIncomplete`
  gives such an endpoint, and `Consumer.CanConsumeCompleteExactly` says for which producers there is none.
- The TypeScript and Rust versions of the RTX removal differ exactly when a useful RTX codec names nothing but
  later RTX codecs that are useless themselves (`UselessRtx.VersionsAgreeExactly`, `UselessRtx.VersionsMayDiffer`).
  The codecs a router derives from a producer whose payload types are distinct never get there, even where the
  derived types repeat (`Consumer.ConsumerRtxPaired`).
- Producer codecs that are matched to the same codec of a router repeat its payload type in what is derived, and the
  worker refuses parameters with a repeated payload type (`PipeHops.HopAcceptedExactly`).
- With more than 99 encodings a consumer that is not piped panics in Rust, because the scalability mode that is made
  for it cannot be read (`Consumer.ReducibleExactly`, `Consumer.CanConsumeSound`).
- A `pipeToRouter` call whose pair creation fails leaves its router unable to pipe to that router for good, and so
  do ends that close before the handlers of their close events are registered (`PipePairs.KeyExactly`,
  `PipePairs.FinalForGood`, `PipePairs.FailureIsFinal`, `PipePairs.EarlyCloseIsFinal`,
  `PipePairs.LateHandlerIsFinal`).
- If only one of the two transports of a pair can be made, it is left open (`PipePairs.FailureLeaksExactly`), and
  may stay open beside a second pair between the same routers (`PipePairs.FailureLeaks`).
- A producer whose reply arrives after its transport was closed stays in the index of the router
  (`Lifecycle.AddInv`, `Lifecycle.LateReplyMisindexed`), and objects that are linked when one of them is closed do not
  close each other any more (`Lifecycle.LinkInv`).
- An SCTP stream id whose `consumeData` request fails is never free again (`StreamIds.LostForGood`,
  `StreamIds.StartFailsExactly`, `StreamIds.FailureLosesId`).
- Fingerprint texts with lower-case digits, plus signs or other separators are accepted
  (`Fingerprint.ParsePrintExactly`, `Fingerprint.LowerCaseAccepted`), and texts whose first bad pair begins or ends
  inside a character panic (`Fingerprint.NoPanicExactly`, `Fingerprint.WideSeparatorPanics`,
  `Fingerprint.WideDigitPanics`).

## Model

| member | source | states |
|---|---|---|
| Rtp.MatchesExactly | rust/src/ortc.rs:981-1105 | two codecs match if and only if they agree in mime type, channels and clock rate, for multiopus in both stream counts, and strictly also in the VP9 profile and in the H264 packetization mode, with zero for absent ones, and the H264 library consents |
| Rtp.FirstMatchIsFirst | rust/src/ortc.rs:338-350 | the router codec found for a codec is the first that it agrees with, and there is none if and only if it agrees with none |
| Rtp.LookupsAreFirst | rust/src/ortc.rs:371-400 | lookups by payload type and by `apt` give the first codec there is |
| Rtp.KindsExactly | rust/src/rtp_parameters.rs:206-290 | which mime types are RTX and which are video, and which parameters are an `apt` |
| RouterCapabilities.GenerateRouterRtpCapabilities | rust/src/ortc.rs:185-318 | gives the allocation of the specification or its error; with a table free of RTX entries and of dynamic payload types, all payload types are distinct, video and RTX codecs are linked, RTX codecs are plain and every given codec is stood for in order |
| RouterCapabilities.AllocateCodecs | rust/src/ortc.rs:198-315 | the loop over the media codecs computes the specified allocation, with the first error winning |
| RouterCapabilities.AddMediaCodec | rust/src/ortc.rs:199-314 | one turn: choice of payload type, duplicate check over all codecs so far, RTX codec for video, each error in its place |
| RouterCapabilities.SpliceOut | node/src/ortc.ts:767-772 | removing by index and splice is the filter that the Rust version applies |
| RouterCapabilities.DynamicPayloadTypesDistinct | rust/src/ortc.rs:22-25 | the dynamic payload types are pairwise distinct |
| RouterCapabilities.AllocateSound | rust/src/ortc.rs:198-315 | for every accepted list: payload types distinct although RTX ones are never checked; remaining dynamic types are the original list minus the used ones in order; each video codec directly followed by its RTX codec, which has its clock rate, an `apt` and nothing else; one media codec per given one, with the feedback of the first table entry that agrees with it, the given parameters, those of the entry that were not given, and the payload type it is bound to get |
| RouterCapabilities.AddCodecTakes | rust/src/ortc.rs:213-310 | an accepted codec gets the type it is bound to get or else the first unused dynamic one, and its RTX codec the first one unused after that |
| RouterCapabilities.FirstSupportedIsFirst | rust/src/ortc.rs:199-211 | the table entry used is the first that agrees, profiles aside, and there is none if and only if none agrees |
| RouterCapabilities.ExactlyOneRtx | rust/src/ortc.rs:289-310 | the RTX codec that names a video codec is the one right after it, and there is no other |
| RouterCapabilities.AllocateRefusedExactly | rust/src/ortc.rs:199-314 | a list is refused with an error if and only if, at the first codec that cannot be added, that error is called for: a bad `apt`, no supported codec, a bound payload type in use, or too few dynamic types left for the codec and its RTX codec |
| ProducerMapping.GetProducerRtpParametersMapping | rust/src/ortc.rs:322-445 | gives an error exactly when the specification does; otherwise the entries list the codec map once each, in any order, and the encodings get consecutive SSRCs |
| ProducerMapping.MatchMediaCodecs | rust/src/ortc.rs:332-363 | the pass over media codecs, first match wins, first failure reported |
| ProducerMapping.MatchRtxCodecs | rust/src/ortc.rs:366-420 | the pass over RTX codecs, including the panic on a codec that is not mapped |
| ProducerMapping.ListEntries | rust/src/ortc.rs:423-428 | the entries enumerate the map without repetition |
| ProducerMapping.ListEncodings | rust/src/ortc.rs:431-442 | one entry per encoding with consecutive mapped SSRCs |
| ProducerMapping.MapEncodings | rust/src/ortc.rs:431-442 | the i-th encoding keeps its own SSRC, RID and scalability mode and is mapped to the i-th SSRC from the base |
| ProducerMapping.MapCodecsExact | rust/src/ortc.rs:332-420 | on a router's capabilities mapping succeeds if and only if every media codec has a match and every RTX codec leads to a matched media codec that has an RTX codec, and each codec then maps to what this definition calls for |
| ProducerMapping.MapErrorExactly | rust/src/ortc.rs:332-420 | each error is given if and only if the first codec that its pass cannot map calls for it; the panic, if and only if every media codec is matched and the first RTX codec that cannot be mapped names an RTX codec that does not come before it |
| ProducerMapping.MappedToFirst | rust/src/ortc.rs:332-363 | every media codec is mapped to the payload type of the first router codec that it agrees with, field by field |
| ProducerMapping.UnsupportedExactly | rust/src/ortc.rs:355-361 | a codec is reported as unsupported if and only if it is the first media codec that agrees with no router codec |
| ProducerMapping.SelfAptPanics | rust/src/ortc.rs:371-386 | a producer whose RTX codec names itself panics |
| ProducerMapping.MappingCommutesWithApt | rust/src/ortc.rs:366-428 | a mapped RTX codec is the router's RTX codec whose `apt` is the payload type its own media codec maps to |
| Consumable.GetConsumableRtpParameters | rust/src/ortc.rs:449-610 | equals the specification, a failed lookup included |
| Consumable.BuildCodecs | rust/src/ortc.rs:457-562 | the loop over codecs equals the specification |
| Consumable.BuildExtensions | rust/src/ortc.rs:564-583 | the loop over extensions equals the specification |
| Consumable.ExtensionsExact | rust/src/ortc.rs:564-583 | the extensions are exactly those of the right kind that the router may send, in their order |
| Consumable.EncodingsExact | rust/src/ortc.rs:585-601 | every producer encoding appears in order under consecutive SSRCs with its settings and nothing else |
| Consumable.ConsumableIsBlocks | rust/src/ortc.rs:457-562 | on a mapping of its own codecs no lookup misses, and the result is a block per media codec: its first match and that codec's RTX codec |
| Consumable.BlocksLinked | rust/src/ortc.rs:457-562 | blocks of a router codec list are linked: each video codec is directly followed by the RTX codec that names it |
| Consumable.ConsumableSound | rust/src/ortc.rs:449-610 | the parameters of every mapped producer exist, with its CNAME, reduced size and multiplexed RTCP and no MID; if its payload types are distinct, they are a block per media codec and each video codec is directly followed by the RTX codec that names it |
| PipeHops.GetPipeConsumerRtpParameters | rust/src/ortc.rs:821-881 | equals the specification |
| PipeHops.PipeConsumerSound | rust/src/ortc.rs:817-881 | keeps RTCP and every encoding with its RID and settings under consecutive SSRCs and RTX SSRCs; drops the MID, and of the extensions exactly that for the MID and those for bandwidth estimation; keeps the codecs in order less RTX codecs without RTX, each with exactly its PLI and FIR feedback and, with RTX, its NACK |
| PipeHops.PipedMappingIsIdentity | rust/src/ortc.rs:322-428 | on a router with the same capabilities the piped codecs always map, each to its own payload type |
| PipeHops.PipedCodecsRestored | rust/src/ortc.rs:457-562 | producing the piped codecs again yields the very same consumable codecs |
| PipeHops.ConsumableForm | rust/src/ortc.rs:449-610 | what a router derives from a producer has the form that hops preserve |
| PipeHops.HopPreserves | rust/src/ortc.rs:322-881 | the negotiation of a hop always succeeds, maps payload types to themselves and changes nothing but SSRCs, with or without RTX |
| PipeHops.HopAcceptedExactly | worker/src/RTC/RtpDictionaries/RtpParameters.cpp:288-295 | what is piped, and what is derived, has no repeated payload type, as the worker demands, if and only if the producer codecs are matched to different codecs of the router |
| PipeHops.ChainPreserves | rust/src/ortc.rs:322-881 | the same over any number of hops, each with its own choice of RTX |
| UselessRtx.RemoveByIndices | rust/src/ortc.rs:682-704 | collecting indices and removing them backwards is one order-preserving filter; RTX is supported exactly when an RTX codec is kept |
| UselessRtx.RemoveAll | rust/src/ortc.rs:702-704 | the removal loop is the filter |
| UselessRtx.SpliceBackwards | node/src/ortc.ts:1170-1189 | the backward splice keeps what the backward recursion keeps; RTX is supported exactly when an RTX codec is kept |
| UselessRtx.VersionsAgreeExactly | node/src/ortc.ts:1170-1189 | the two versions give the same list if and only if every useful RTX codec names a codec at or before its own position, or a later one that is not itself a useless RTX codec |
| UselessRtx.NoRtxNamedAgree | rust/src/ortc.rs:682-704 | if no `apt` names an RTX codec they agree and every kept RTX codec has its media codec in the result |
| UselessRtx.VersionsDiffer | node/src/ortc.ts:1176-1187 | a media codec, an RTX codec that names the next RTX codec, and that one, which names none: Rust keeps two of them, TypeScript one |
| UselessRtx.VersionsMayDiffer | node/src/ortc.ts:1176-1187 | there is such a list |
| Consumer.CanConsume | rust/src/ortc.rs:613-636 | true exactly when the first supported codec exists and is a media codec; an error on invalid capabilities |
| Consumer.GetConsumerRtpParameters | rust/src/ortc.rs:643-815 | equals the specification, written with the version-independent filter for RTX codecs |
| Consumer.MatchCodecs | rust/src/ortc.rs:661-680 | the loop over codecs equals the specification |
| Consumer.FirstCapabilityIsFirst | rust/src/ortc.rs:666-670 | the capability that a codec takes its feedback from is the first that agrees with it, and there is none if and only if none agrees |
| Consumer.SupportedExactly | rust/src/ortc.rs:621-630 | a codec is supported if and only if some capability agrees with it |
| Consumer.KeptInOrder | rust/src/ortc.rs:661-704 | matching and removing useless RTX codecs leaves exactly the supported codecs, of RTX codecs those that name a supported one if RTX is enabled, in their order |
| Consumer.PossibleExactly | rust/src/ortc.rs:661-709 | a consumer is possible if and only if the first codec it is to get is a media codec |
| Consumer.CanConsumeSound | rust/src/ortc.rs:613-815 | if `canConsume` accepts, consumer parameters exist, for every `enableRtx`, if and only if the consumer is piped or there are no more than 99 encodings |
| Consumer.PossibleWithoutRtx | rust/src/ortc.rs:661-709 | without RTX a consumer is possible if and only if some media codec is supported |
| Consumer.RtxDecidesExactly | rust/src/ortc.rs:661-709 | for every codec list, a consumer is possible with RTX if and only if it is without and no supported RTX codec that names a supported codec stands before all supported media codecs |
| Consumer.RtxNeverDecides | rust/src/ortc.rs:661-709 | on linked lists with distinct payload types, enabling RTX never decides whether a consumer is possible |
| Consumer.RtxNeverDecidesOnBlocks | rust/src/ortc.rs:457-709 | nor does it on the codecs a router derives, with repeated payload types too, if H264 compatibility is symmetric and transitive |
| Consumer.RtxDecides | rust/src/ortc.rs:661-709 | it does when two producer codecs share a router codec and the endpoint supports the second only, and RTX |
| Consumer.RtxMayDecide | rust/src/ortc.rs:661-709 | there are a router, a producer and an endpoint of that kind for a compatibility that is not transitive |
| Consumer.RefusedExactly | node/src/ortc.ts:1074-1195 | of the endpoints that a consumer is possible for, with or without RTX, `canConsume` refuses exactly those that support an RTX codec of the list before any media codec of it |
| Consumer.CanConsumeCompleteExactly | node/src/ortc.ts:1074-1195 | for every codec list, `canConsume` accepts every endpoint that a consumer without RTX is possible for if and only if no endpoint codec matches its first media codec behind an RTX codec; and every endpoint that one with RTX is possible for if and only if each such RTX codec has one like it before that media codec which names a codec that is matched or is like it |
| Consumer.PairRefused | node/src/ortc.ts:1097-1101 | an endpoint with one media codec and an RTX codec that comes before it is refused, though a consumer is possible without RTX, and with RTX unless such an RTX codec is useful |
| Consumer.DominationChecked | node/src/ortc.ts:1074-1104 | for lists without H264 the condition is on the list alone: every media codec behind an RTX codec matches a media codec before that |
| Consumer.CanConsumeIncomplete | node/src/ortc.ts:1097-1101 | a list of two video codecs on which `canConsume` is not complete, with RTX and without |
| Consumer.MediaFirstExact | node/src/ortc.ts:1074-1195 | when no media codec stands behind an RTX codec, as for audio or a single video codec, `canConsume` is exact with RTX and without |
| Consumer.ConsumerSound | rust/src/ortc.rs:661-815 | every consumer has a leading media codec; exactly the codecs it is to get, in order; exactly the feedback of the first capability that agrees, less NACK without RTX and less the bandwidth-estimation feedback that the extensions rule out; exactly the extensions both sides have under one id; the RTCP of the producer and no MID; all encodings with RID, codec and settings if piped and otherwise one, with the highest bitrate, its own mode if it is the only one and else a spatial layer per encoding and the temporal layers of the first; consecutive SSRCs, with RTX SSRCs if and only if it has an RTX codec |
| Consumer.ConsumerErrorExactly | rust/src/ortc.rs:655-709 | the exact condition of each error: an `apt` that is a text, no leading media codec, or more than 99 encodings to reduce |
| Consumer.MaxBitrateExact | rust/src/ortc.rs:803-809 | the bitrate of the single encoding is the highest of any encoding, and absent if and only if none has one |
| Consumer.ReducibleExactly | rust/src/ortc.rs:780-800 | the scalability mode made for simulcast can be read if and only if there are no more than 99 encodings, and then has a spatial layer per encoding and the temporal layers of the first |
| Scalability.ParseMode | rust/src/scalability_modes.rs:128-185 | the layers that a text stands for are between 1 and 99 |
| Scalability.ParseModeExactly | rust/src/scalability_modes.rs:170-182 | a text is a mode with these layers if and only if it is `L` or `S`, one or two digits, `T`, one or two digits, read greedily, and anything |
| Scalability.PrintParseExactly | rust/src/scalability_modes.rs:170-182 | a printed mode is read back if and only if it has no more than 99 spatial layers |
| Consumer.ConsumerRtxPaired | rust/src/ortc.rs:682-704 | on the codecs a router derives, whose payload types may repeat even if those of the producer do not, both removal versions agree and every RTX codec of a consumer has its media codec |
| Framing.ByteOrder | node/src/Channel.ts:101-104 | the first of the four bytes is the lowest on a little-endian host and the highest otherwise |
| Framing.WriteLength | node/src/Channel.ts:249-250 | four bytes in the host's order from which the length is read back |
| Framing.ChunkingIrrelevant | node/src/Channel.ts:66-166 | a chunking delivers what decoding the whole stream gives and keeps exactly the incomplete end if and only if the buffer is never overrun |
| Framing.DecodeEncode | node/src/Channel.ts:89-114 | decoding undoes length-prefix encoding |
| Framing.MessagesSurvive | node/src/Channel.ts:66-166 | encoded messages survive a chunking if and only if the buffer is never overrun |
| Framing.DecodeFromIsDecode | node/src/Channel.ts:89-114 | walking a buffer by offset is the pure decoder |
| Framing.DecodeKeepsBytes | node/src/Channel.ts:89-114 | payloads, prefixes and the incomplete end add up to the bytes received |
| Framing.DeliveredBound | node/src/Channel.ts:79-87 | in every run, overruns included, a delivered payload and its prefix fit the limit together |
| Framing.DeliveredExactly | node/src/Channel.ts:19-21 | a message on its own is delivered if and only if its whole frame is within the payload limit |
| Channel.Channel.Receive | node/src/Channel.ts:66-166 | the buffer becomes the incomplete end and the messages act on the requests in order; an overrun empties the buffer and processes nothing |
| Channel.Channel.ReceiveChunks | node/src/Channel.ts:66-166 | over any sequence of chunks of an encoded stream that never overruns the buffer, every message is processed once and in order |
| Channel.Channel.ProcessMessages | node/src/Channel.ts:89-160 | the loop ends and processes exactly the whole messages |
| Channel.Channel.Request | node/src/Channel.ts:228-286 | the id advances and wraps past zero on every call; the request is recorded only if it could be sent |
| Channel.Channel.ProcessMessage | node/src/Channel.ts:288-350 | a response settles and forgets the request recorded under its id |
| Channel.Channel.SettlePromise | node/src/Channel.ts:259-276 | a settled promise keeps its outcome |
| Channel.Channel.Close | node/src/Channel.ts:188-203 | every recorded request is rejected and stays recorded |
| Channel.ReceivingIsRun | node/src/Channel.ts:66-166 | receiving a chunk is a run with a step per message |
| Channel.NextIdOf | node/src/Channel.ts:230-232 | counting up and wrapping past zero gives the (k+1)-th call the id (k mod (2^32 - 1)) + 1 |
| Channel.Channel.constructor | node/src/Channel.ts:31-60 | a new channel has nothing sent and nothing received |
| Channel.RunInv | node/src/Channel.ts:228-331 | in every run the id in use is that of the latest call; an id that is recorded belongs to a request made with it; only sent requests have outcomes; a recorded request is settled if and only if the channel is closed; and on an open channel no request is settled twice |
| Channel.WindowedRun | node/src/Channel.ts:228-286 | if fewer than 2^32-1 calls are made while a request is pending, every pending request is recorded under its own id |
| Channel.RequestLosesExactly | node/src/Channel.ts:230-284 | a request displaces a pending one if and only if that was called a multiple of 2^32-1 calls before |
| Channel.ResponseSettlesItsRequest | node/src/Channel.ts:288-331 | a response settles the pending request with its id and no other: accepted resolves it, a type error and any other error reject it with their error |
| Channel.CloseRejectsPending | node/src/Channel.ts:188-203 | closing rejects every pending request, changes no other outcome and leaves the records as they are |
| Channel.OutcomeExactly | node/src/Channel.ts:188-331 | in every run a request is resolved if and only if an accepting response with its id arrived while it was recorded on the open channel, rejected with an error if and only if such an error response did, and rejected as closed if and only if the channel was closed while it was recorded |
| Channel.OutcomesStable | node/src/Channel.ts:259-280 | an outcome never changes in any later run |
| Channel.ClosedStaysSettled | node/src/Channel.ts:236-239 | nothing is pending after a channel is closed |
| PayloadChannel.PayloadChannel.Receive | node/src/PayloadChannel.ts:67-124 | the buffer becomes the incomplete end and the frames are processed in order |
| PayloadChannel.PayloadChannel.ReceiveChunks | node/src/PayloadChannel.ts:67-124 | over any sequence of chunks of an encoded stream of items that never overruns the buffer, the items have their right effect if and only if no notification was open before |
| PayloadChannel.PayloadChannel.ProcessFrames | node/src/PayloadChannel.ts:90-118 | the loop ends and processes exactly the whole frames |
| PayloadChannel.PayloadChannel.ProcessData | node/src/PayloadChannel.ts:308-401 | a header opens a notification, the next frame closes it, and a response is correlated otherwise |
| PayloadChannel.ItemsPaired | node/src/PayloadChannel.ts:308-401 | for any stream of messages and notifications, exactly the notifications are emitted, in order, each with its own payload, payloads are never taken for responses and none stays open, if and only if none was open before: an open one is never made up for |
| PayloadChannel.StreamPaired | node/src/PayloadChannel.ts:67-124 | the same for the encoded stream under any chunking that never overruns the buffer |
| PayloadChannel.DiscardMispairs | node/src/PayloadChannel.ts:80-88 | after a discarded buffer, what arrives has its right effect if and only if no notification was open |
| PayloadChannel.OverrunOnNewChannel | node/src/PayloadChannel.ts:67-124 | on a new channel a header, an overrun and a response make the response the payload of the notification, and settle nothing |
| Lifecycle.Session.Close | node/src/Router.ts:266-306 | closing any object ends, closes exactly what is reachable by ownership and links, and the observers of exactly the closed objects have fired, once each |
| Lifecycle.Session.CloseRouter | node/src/Router.ts:266-306 | the router is closed, nothing outside what it reaches is, and the tables agree again |
| Lifecycle.Session.CloseTransports | node/src/Router.ts:282-300 | the loop over transports leaves none open and no entry of theirs |
| Lifecycle.Session.CloseTransport | node/src/Transport.ts:283-402 | `close` and `routerClosed`: the transport is closed, nothing outside what it reaches is, and the tables agree but for those of the objects still closing |
| Lifecycle.Session.CloseOwned | node/src/Transport.ts:303-337 | the transport has no producer or consumer left, and what is left of it in its router is for a closing router to clear |
| Lifecycle.Session.CloseProducers | node/src/Transport.ts:303-311 | after the loop the transport has no producer, and none is left in the index of a router that is not closing |
| Lifecycle.Session.CloseConsumers | node/src/Transport.ts:313-318 | after the loop the transport has no consumer |
| Lifecycle.Session.CloseLeaf | node/src/Producer.ts:348-398 | `close` and `transportClosed` of producers and consumers: the object is closed, nothing outside what it reaches is, and the tables agree but for those of the objects still closing; the `producerclose` notification of a consumer (lines 624-644 of node/src/Consumer.ts) has the effect of its `close` |
| Lifecycle.Session.FireClose | node/src/Router.ts:852-864 | the observer event is added to the log once, and afterwards every linked peer is closed |
| Lifecycle.Session.Create | node/src/Transport.ts:651-658 | a new object is registered in all its tables, and the invariant is kept if and only if its owner is open |
| Lifecycle.Session.Link | node/src/Router.ts:941-947 | two objects observe each other's close, and the invariant is kept if and only if both are open or both closed |
| Lifecycle.ReachClosed | node/src/Router.ts:852-864 | the reachable set is the least one that no ownership or link leaves |
| Lifecycle.CascadeExact | node/src/Transport.ts:283-402 | a complete cascade closes the reachable objects, no more and no fewer |
| Lifecycle.IndexAgreement | node/src/Router.ts:456-466 | between closes a router's producer index is the union of the tables of its transports, and all of them are open |
| Lifecycle.MarkInv | node/src/Transport.ts:283-296 | marking an object as closed keeps the invariant with that object among those still closing |
| Lifecycle.FinishInv | node/src/Transport.ts:283-402 | an object with its tables cleared, its event fired and all it reaches closed is no longer among those still closing |
| Lifecycle.AddInv | node/src/Transport.ts:651-658 | making an object keeps the invariant if and only if its owner has not been closed in the meantime |
| Lifecycle.LateReplyMisindexed | node/src/Router.ts:456-466 | a producer that is made on a closed transport is in the index of the router and in the table of no transport of it |
| Lifecycle.LinkInv | node/src/Router.ts:941-947 | linking keeps the invariant if and only if both objects are open or both closed |
| PipePairs.Host.PipeToRouter | node/src/Router.ts:803-898 | a call shares the recorded pair or starts one and records it on both sides, or fails after having started it; the invariant is kept |
| PipePairs.CallAnswers | node/src/Router.ts:803-898 | a call waits for the pair that its router has recorded from then on, and is refused if and only if its router has no entry and the other one has |
| PipePairs.Host.AddPipeTransportPair | node/src/Router.ts:1033-1065 | refuses a key that exists, records it otherwise |
| PipePairs.Host.PairFailed | node/src/Router.ts:872-889 | both ends are closed if both were made, and neither otherwise; the creator keeps its key; the invariant is kept |
| PipePairs.Host.PairSettled | node/src/Router.ts:1048-1064 | the other router learns of the outcome in a step of its own: it registers its handler, or forgets a failed pair; the invariant is kept |
| PipePairs.Host.EndClosed | node/src/Router.ts:852-864 | an end may close at any time; the invariant is kept |
| PipePairs.Host.CloseEnd | node/src/Router.ts:852-864 | the mutually recursive closes of both ends and their handlers end, close both ends of a live pair, and delete the keys of the routers that hear it |
| PipePairs.Host.LocalClosed | node/src/Router.ts:852-857 | the creator's handler on its own end closes the other end and forgets the pair |
| PipePairs.Host.RemoteClosed | node/src/Router.ts:859-864 | the creator's handler on the other end closes its own end and forgets the pair |
| PipePairs.ReadyInv | node/src/Router.ts:850-871 | registering the creator's handlers keeps the invariant and every final key, also when ends are closed already |
| PipePairs.RunInv | node/src/Router.ts:803-898 | in every interleaving, with ends closing at any time and either transport failing to be made, each key is held exactly as long as nothing heard made its router forget; a settled pair whose remote end is open is watched by the other router; and a pair that could not be recorded on the other side is there because of a final key |
| PipePairs.AtMostOnePair | node/src/Router.ts:803-898 | in every interleaving at most one pair that is being made, or was made and has an open end, joins two routers; a transport left over from a failed pair does not count |
| PipePairs.KeyExactly | node/src/Router.ts:803-898 | a router holds another's key if and only if a pair that is being made, or was made and has an open end, joins them; both ends of a made pair were closed before the handlers were registered; a pair of its own making failed; it has yet to learn that a pair made for it failed; or its own end of a pair that it recorded was closed before its handler was registered |
| PipePairs.KeysSymmetric | node/src/Router.ts:892-895 | without failures and early closes both routers record the same pair, which is being made or open at both ends |
| PipePairs.EndCloseClears | node/src/Router.ts:852-864 | closing either end of a live pair closes both and clears the key of the creator; the other router is left without a key if and only if its own end was open and its handler registered; no other key changes |
| PipePairs.SettledCloseClears | node/src/Router.ts:852-864 | once both routers have registered their handlers, closing either end closes both and clears exactly both keys |
| PipePairs.OrdinaryLife | node/src/Router.ts:803-898 | a pair that is made, learned of by both routers and closed at either end leaves no key |
| PipePairs.FinalForGood | node/src/Router.ts:806-817 | a final key names the same dead pair in every later state |
| PipePairs.FailureIsFinal | node/src/Router.ts:872-889 | a call and a failure, whichever transports were made, leave the caller with a final key and the other router with none |
| PipePairs.EarlyCloseIsFinal | node/src/Router.ts:850-871 | ends that close while the pair is being made leave both routers with final keys |
| PipePairs.LateHandlerIsFinal | node/src/Router.ts:1048-1059 | an end that closes after the pair is ready, but before its router has registered its handler, leaves that router with a final key |
| PipePairs.FailureLeaksExactly | node/src/Router.ts:819-889 | a failure leaves an end open if and only if its transport was made, the other was not, and it has not been closed in the meantime |
| PipePairs.FailureLeaks | node/src/Router.ts:819-889 | a run with such an end and a second pair being made between the same routers |
| StreamIds.Transport.GetNextSctpStreamId | node/src/Transport.ts:1033-1065 | the circular scan over the lazily made buffer returns the specified id and moves the cursor behind it, or an error |
| StreamIds.Transport.ConsumeData | node/src/Transport.ts:944-948 | the id is marked and held by the data consumer; the invariant is kept |
| StreamIds.Transport.CloseAll | node/src/Transport.ts:331-335 | closing with the transport unmarks nothing: the ids stay marked without a holder; the invariant is kept |
| StreamIds.Transport.CloseDataConsumer | node/src/Transport.ts:995-1012 | the id of an open data consumer is unmarked; the invariant is kept |
| StreamIds.Transport.RequestFailed | node/src/Transport.ts:978-979 | the id of a pending data consumer stays marked without a holder; the invariant is kept |
| StreamIds.FirstFree | node/src/Transport.ts:1052-1062 | what the scan finds is an unmarked id |
| StreamIds.FirstFreeIsFirst | node/src/Transport.ts:1052-1062 | and the first one in cyclic order from the cursor |
| StreamIds.NoneFreeExactly | node/src/Transport.ts:1052-1064 | the scan fails if and only if all ids are marked |
| StreamIds.RunAccounted | node/src/Transport.ts:944-1012 | in every run no two pending or open data consumers share an id, and an id is marked if and only if one holds it or it was lost |
| StreamIds.RunInv | node/src/Transport.ts:944-1065 | the same invariant is kept from every state that has it |
| StreamIds.ReplyInv | node/src/Transport.ts:981-994 | a reply opens a pending data consumer and changes nothing else |
| StreamIds.MarkChanges | node/src/Transport.ts:994-1012 | an id is unmarked by the close of its holder only and marked by its allocation only |
| StreamIds.StartTakes | node/src/Transport.ts:944-1065 | an allocation takes the first unmarked id in cyclic order from the cursor, gives it to the data consumer and moves the cursor right behind it; if it fails nothing changes but the buffer |
| StreamIds.StartWithoutMis | node/src/Transport.ts:1035-1041 | without the number of streams there is only the error |
| StreamIds.LostForGood | node/src/Transport.ts:978-979 | an id lost with a failed request is never given out again |
| StreamIds.FailureLosesId | node/src/Transport.ts:978-979 | on a transport with a single stream one failed request makes every later one fail |
| StreamIds.StartFailsExactly | node/src/Transport.ts:1033-1065 | allocation fails if and only if every id is held or lost |
| Associations.DepUsrSCTP.GetNextSctpAssociationId | worker/src/DepUsrSCTP.cpp:122-144 | while a nonzero id is free the probe ends, at the specified id, with the cursor behind it |
| Associations.DepUsrSCTP.RegisterSctpAssociation | worker/src/DepUsrSCTP.cpp:146-164 | counter, map and checker stay consistent |
| Associations.DepUsrSCTP.DeregisterSctpAssociation | worker/src/DepUsrSCTP.cpp:166-181 | counter, map and checker stay consistent |
| Associations.DepUsrSCTP.NewAssociation | worker/src/DepUsrSCTP.cpp:122-164 | the id taken is never registered already |
| Associations.ProbeNearest | worker/src/DepUsrSCTP.cpp:132-143 | the probe ends at a free nonzero id and no free id is nearer in cyclic order |
| Associations.ProbeUnique | worker/src/DepUsrSCTP.cpp:132-143 | the result does not depend on which free id is known |
| Associations.GetNextInv | worker/src/DepUsrSCTP.cpp:122-144 | the id taken is nonzero, not in use, and the nearest from the cursor on; the cursor moves right behind it and nothing else changes |
| Associations.RegisterInv | worker/src/DepUsrSCTP.cpp:146-164 | registering a free id keeps counter, map and checker consistent |
| Associations.DeregisterInv | worker/src/DepUsrSCTP.cpp:166-181 | deregistering keeps them consistent, and the counter was positive |
| Associations.RunInv | worker/src/DepUsrSCTP.cpp:122-181 | in every run of one thread, ids taken by constructors that throw before they register included, the counter is the size of the map and the checker runs if and only if it is positive |
| Time.ExactlyOneNewer | worker/include/Utils.hpp:333-346 | of two different timestamps exactly one is newer; at distance 2^31 it is the greater one |
| Time.NewerIsGreater | worker/include/Utils.hpp:333-346 | on timestamps less than 2^31 apart the comparison is that of the unwrapped values |
| Time.LatestTracksHighest | worker/include/Utils.hpp:348-351 | keeping the latest timestamp keeps the highest one modulo 2^32 through any number of wrap-arounds |
| Time.NtpRoundTrip | worker/include/Utils.hpp:312-331 | whatever the rounding of the double division, the conversion round-trips if and only if the seconds fit 32 bits |
| Time.NtpExact | worker/include/Utils.hpp:312-320 | the seconds are whole and wrap, and the fraction is that of the milliseconds to about one unit |
| Time.MillisecondsRestored | worker/include/Utils.hpp:312-331 | for every quotient within double precision the milliseconds come back from the fraction |
| Time.FractionBounds | worker/include/Utils.hpp:316-318 | the fraction fits 32 bits |
| Fingerprint.DigitExactly | rust/src/data_structures.rs:377 | exactly the sixteen digits are read, letters in either case, and upper-case ones are printed |
| Fingerprint.ByteExactly | rust/src/data_structures.rs:377 | a byte is two digits, or a plus sign and a digit |
| Fingerprint.SizesExactly | rust/src/data_structures.rs:410-484 | names and sizes of the algorithms |
| Fingerprint.ParseAsBytes | rust/src/data_structures.rs:375-387 | fills the output with the bytes of the pairs, or else reports the first pair that is not a byte, or panics if and only if that pair begins or ends inside a character |
| Fingerprint.Parse | rust/src/data_structures.rs:389-484 | unknown algorithm, wrong length in bytes, bad digits and the panic each have their exact condition; otherwise the bytes have the size of the algorithm |
| Fingerprint.ValueStringAt | rust/src/data_structures.rs:500-735 | the text of n bytes has length 3n-1 with each byte's digits and a colon in their places |
| Fingerprint.PrintParse | rust/src/data_structures.rs:375-735 | printing and parsing gives back the same bytes, and printed texts are ASCII |
| Fingerprint.ParseUnique | rust/src/data_structures.rs:375-387 | a text stands for one value only |
| Fingerprint.ParsePrintExactly | rust/src/data_structures.rs:375-735 | parsing and printing gives back the text if and only if it was canonical |
| Fingerprint.LowerCaseAccepted | rust/src/data_structures.rs:375-387 | for every length there is a text in lower case that is accepted and not reproduced |
| Fingerprint.NoPanicExactly | rust/src/data_structures.rs:375-387 | a text of the right length does not panic if and only if all pairs are bytes or the first that is not begins and ends between characters |
| Fingerprint.WideSeparatorPanics | rust/src/data_structures.rs:375-387 | for every length from two pairs on there is a text that panics |
| Fingerprint.WideDigitPanics | rust/src/data_structures.rs:375-387 | so does one in which the first pair ends inside a character |

## Left out

- Consumer.GetConsumerRtpParameters: the scalability mode of no encodings is the empty text; the TypeScript version takes the first mode that any encoding has, where the Rust version and the model take that of the first encoding.
- The H264 profile library is a parameter that says whether an answer exists; the TypeScript version also rewrites `profile-level-id` of the producer's codec while matching, which the Rust version does not and the model does not either.
- The validators check field types; the model keeps the one check that the rest relies on, that `apt` is a number, and takes the normal form they produce as its data types.
- The table of supported codecs is a parameter; the facts used of it are that it has no RTX entry and that its payload types are not dynamic (rust/src/supported_rtp_capabilities.rs:21-279).
- SSRC arithmetic is unbounded; the bases are below 10^9, so that wrapping would take billions of encodings.
- Lifecycle.Session.Close: data producers and data consumers, which are closed by the same code as producers and consumers, RTP observers, worker and WebRtcServer closes, and application handlers on close events are not modelled.
- PayloadChannel requests share the specification of the channel's; its `close`, which does not reject pending requests, and listeners that throw are not modelled.
- Associations: one worker thread; the counter and the map are shared by threads in the source, the checker is not.
- StreamIds: direct transports, which use no stream ids.
- Sockets, JSON, timers, logging, statistics and the media path of the worker.
