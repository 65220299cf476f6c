/** RTP codecs, capabilities and parameters, and the rule that decides whether two codecs match. */
module Rtp {
  import opened Common

  datatype MediaKind = Audio | Video

  datatype MimeType =
    | Opus | MultiChannelOpus | Pcmu | Pcma | Isac | G722 | Ilbc | Silk | Cn | TelephoneEvent | AudioRtx | AudioRed
    | Vp8 | Vp9 | H264 | H264Svc | H265 | VideoRtx | VideoRed | Ulpfec
  {
    predicate IsRtx() { AudioRtx? || VideoRtx? }

    function Kind(): MediaKind {
      match this
      case Vp8 | Vp9 | H264 | H264Svc | H265 | VideoRtx | VideoRed | Ulpfec => Video
      case _ => Audio
    }
  }

  datatype ParamValue = Str(s: string) | Num(n: u32)
  type Params = map<string, ParamValue>

  datatype Feedback = Nack | NackPli | CcmFir | GoogRemb | TransportCc | Unsupported

  /** What codec matching looks at. */
  datatype CodecToMatch = CodecToMatch(mime: MimeType, clockRate: nat, channels: Option<nat>, params: Params)

  /** A codec whose payload type is fixed: an entry of the RTP parameters, or of a router's
      (finalized) capabilities, which carry the same fields. */
  datatype Codec = Codec(mime: MimeType, pt: u8, clockRate: nat, channels: Option<nat>,
                         params: Params, feedback: seq<Feedback>)
  {
    predicate IsRtx() { mime.IsRtx() }
    function ToMatch(): CodecToMatch { CodecToMatch(mime, clockRate, channels, params) }
    function Apt(): Option<u32> { AptOf(params) }
  }

  /** A codec capability given by an application or an endpoint: its payload type is a mere preference. */
  datatype CodecCapability = CodecCapability(mime: MimeType, preferredPt: Option<u8>, clockRate: nat,
                                             channels: Option<nat>, params: Params, feedback: seq<Feedback>)
  {
    function ToMatch(): CodecToMatch { CodecToMatch(mime, clockRate, channels, params) }
  }

  datatype Direction = SendRecv | SendOnly | RecvOnly | Inactive

  datatype ExtensionUri =
    | Mid | RtpStreamId | RepairRtpStreamId | FrameMarkingDraft07 | FrameMarking | AudioLevel | VideoOrientation
    | TimeOffset | TransportWideCcDraft01 | AbsSendTime | AbsCaptureTime | UnsupportedUri

  datatype HeaderExtension = HeaderExtension(kind: MediaKind, uri: ExtensionUri, preferredId: nat,
                                             preferredEncrypt: bool, direction: Direction)

  datatype ExtensionParameters = ExtensionParameters(uri: ExtensionUri, id: nat, encrypt: bool)

  /** The settings of an encoding that negotiation copies without looking at them. */
  datatype EncodingSettings = EncodingSettings(dtx: Option<bool>, scalabilityMode: string,
                                               scaleResolutionDownBy: Option<real>, maxBitrate: Option<u32>)

  datatype Encoding = Encoding(ssrc: Option<nat>, rid: Option<string>, codecPt: Option<u8>,
                               rtxSsrc: Option<nat>, settings: EncodingSettings)

  datatype Rtcp = Rtcp(cname: Option<string>, reducedSize: bool, mux: Option<bool>)

  datatype RtpParameters = RtpParameters(mid: Option<string>, codecs: seq<Codec>,
                                         headerExtensions: seq<ExtensionParameters>,
                                         encodings: seq<Encoding>, rtcp: Rtcp)

  /** A router's capabilities. */
  datatype RouterCaps = RouterCaps(codecs: seq<Codec>, headerExtensions: seq<HeaderExtension>)

  /** An endpoint's capabilities. */
  datatype RemoteCaps = RemoteCaps(codecs: seq<CodecCapability>, headerExtensions: seq<HeaderExtension>)

  function AptOf(p: Params): Option<u32> {
    if "apt" in p && p["apt"].Num? then Some(p["apt"].n) else None
  }

  /** `apt`, when present, must be a number. */
  predicate ValidApt(p: Params) {
    "apt" in p ==> p["apt"].Num?
  }

  /** The H264 profile library, seen as a function of what it is given: both profile-level-ids and
      whether each side allows level asymmetry. True when an answer can be generated. */
  type H264 = (Option<string>, bool, Option<string>, bool) -> bool

  function Get(p: Params, key: string): Option<ParamValue> {
    if key in p then Some(p[key]) else None
  }

  function GetOrZero(p: Params, key: string): ParamValue {
    if key in p then p[key] else Num(0)
  }

  function ProfileLevelId(p: Params): Option<string> {
    if "profile-level-id" in p && p["profile-level-id"].Str? then Some(p["profile-level-id"].s) else None
  }

  predicate LevelAsymmetry(p: Params) {
    Get(p, "level-asymmetry-allowed") == Some(Num(1))
  }

  predicate Matches(h264: H264, a: CodecToMatch, b: CodecToMatch, strict: bool) {
    && a.mime == b.mime
    && a.channels == b.channels
    && a.clockRate == b.clockRate
    && match a.mime
       case MultiChannelOpus =>
         && Get(a.params, "num_streams") == Get(b.params, "num_streams")
         && Get(a.params, "coupled_streams") == Get(b.params, "coupled_streams")
       case H264 | H264Svc =>
         strict ==>
           && GetOrZero(a.params, "packetization-mode") == GetOrZero(b.params, "packetization-mode")
           && h264(ProfileLevelId(a.params), LevelAsymmetry(a.params),
                   ProfileLevelId(b.params), LevelAsymmetry(b.params))
       case Vp9 =>
         strict ==> GetOrZero(a.params, "profile-id") == GetOrZero(b.params, "profile-id")
       case _ => true
  }

  // ----- what matching means, field by field -----

  /** A parameter is absent on both sides, or present on both with the same value. */
  ghost predicate SameParam(p: Params, q: Params, key: string) {
    (key in p <==> key in q) && (key in p ==> p[key] == q[key])
  }

  /** The same, where an absent parameter stands for zero. */
  ghost predicate SameOrZero(p: Params, q: Params, key: string) {
    && (key in p && key in q ==> p[key] == q[key])
    && (key in p && key !in q ==> p[key] == Num(0))
    && (key !in p && key in q ==> q[key] == Num(0))
  }

  /** What the H264 library is told of one side: the profile-level-id, if it is a text, and whether level asymmetry is
      allowed, which takes the number 1. */
  ghost predicate Tells(p: Params, id: Option<string>, asymmetry: bool) {
    && (forall s :: id == Some(s) <==> "profile-level-id" in p && p["profile-level-id"] == Str(s))
    && (asymmetry <==> "level-asymmetry-allowed" in p && p["level-asymmetry-allowed"] == Num(1))
  }

  ghost predicate Consents(h264: H264, p: Params, q: Params) {
    exists i, x, j, y :: Tells(p, i, x) && Tells(q, j, y) && h264(i, x, j, y)
  }

  /** The codecs agree in what every match looks at; strictly, also in the profile of VP9 and in packetization mode and
      profile of H264. */
  ghost predicate Agree(h264: H264, a: CodecToMatch, b: CodecToMatch, strict: bool) {
    && a.mime == b.mime && a.channels == b.channels && a.clockRate == b.clockRate
    && (a.mime == MultiChannelOpus ==>
          SameParam(a.params, b.params, "num_streams") && SameParam(a.params, b.params, "coupled_streams"))
    && (strict && a.mime == Vp9 ==> SameOrZero(a.params, b.params, "profile-id"))
    && (strict && (a.mime == MimeType.H264 || a.mime == H264Svc) ==>
          SameOrZero(a.params, b.params, "packetization-mode") && Consents(h264, a.params, b.params))
  }

  lemma MatchesExactly(h264: H264, a: CodecToMatch, b: CodecToMatch, strict: bool)
    ensures Matches(h264, a, b, strict) <==> Agree(h264, a, b, strict)
  {
    TellsExactly(a.params);
    TellsExactly(b.params);
  }

  lemma TellsExactly(p: Params)
    ensures forall id, asymmetry ::
              Tells(p, id, asymmetry) <==> id == ProfileLevelId(p) && asymmetry == LevelAsymmetry(p)
  {
    forall id, asymmetry
      ensures Tells(p, id, asymmetry) <==> id == ProfileLevelId(p) && asymmetry == LevelAsymmetry(p)
    {
      TellsOnly(p, id, asymmetry);
    }
  }

  lemma TellsOnly(p: Params, id: Option<string>, asymmetry: bool)
    ensures Tells(p, id, asymmetry) <==> id == ProfileLevelId(p) && asymmetry == LevelAsymmetry(p)
  {
    if Tells(p, id, asymmetry) && id.Some? {
      assert id == Some(id.value);
    }
    if Tells(p, id, asymmetry) && ProfileLevelId(p).Some? {
      assert id == Some(ProfileLevelId(p).value);
    }
  }

  /** The mime types, and what `apt` is. */
  lemma KindsExactly(mime: MimeType, p: Params, n: u32)
    ensures mime.IsRtx() <==> mime in {AudioRtx, VideoRtx}
    ensures mime.Kind() == Video <==> mime in {Vp8, Vp9, MimeType.H264, H264Svc, H265, VideoRtx, VideoRed, Ulpfec}
    ensures AptOf(p) == Some(n) <==> "apt" in p && p["apt"] == Num(n)
    ensures !ValidApt(p) <==> "apt" in p && p["apt"].Str?
  {
  }

  /** What matching is told of a codec. */
  ghost function Look(c: Codec): CodecToMatch { CodecToMatch(c.mime, c.clockRate, c.channels, c.params) }

  /** The same of a capability. */
  ghost function LookCap(c: CodecCapability): CodecToMatch { CodecToMatch(c.mime, c.clockRate, c.channels, c.params) }

  /** The codec at `i` is the first of the router's that a producer codec agrees with. */
  ghost predicate FirstAgreeing(h264: H264, key: CodecToMatch, caps: seq<Codec>, i: int) {
    && 0 <= i < |caps| && Agree(h264, key, Look(caps[i]), true)
    && forall k :: 0 <= k < i ==> !Agree(h264, key, Look(caps[k]), true)
  }

  lemma {:induction false} FirstMatchIsFirst(h264: H264, key: CodecToMatch, caps: seq<Codec>)
    ensures FirstMatch(h264, key, caps).None? <==>
            forall i :: 0 <= i < |caps| ==> !Agree(h264, key, Look(caps[i]), true)
    ensures FirstMatch(h264, key, caps).Some? ==>
              exists i :: FirstAgreeing(h264, key, caps, i) && caps[i] == FirstMatch(h264, key, caps).value
  {
    if caps != [] {
      MatchesExactly(h264, key, caps[0].ToMatch(), true);
      if Matches(h264, key, caps[0].ToMatch(), true) {
        assert FirstAgreeing(h264, key, caps, 0);
      } else {
        var others := caps[1..];
        FirstMatchIsFirst(h264, key, others);
        assert forall i :: 0 < i < |caps| ==> caps[i] == others[i - 1];
        if FirstMatch(h264, key, others).Some? {
          var i :| FirstAgreeing(h264, key, others, i) && others[i] == FirstMatch(h264, key, others).value;
          FirstAgreeingShift(h264, key, caps, i);
        }
      }
    }
  }

  lemma FirstAgreeingShift(h264: H264, key: CodecToMatch, caps: seq<Codec>, i: int)
    requires caps != [] && !Agree(h264, key, Look(caps[0]), true) && FirstAgreeing(h264, key, caps[1..], i)
    ensures FirstAgreeing(h264, key, caps, i + 1)
  {
    forall k | 0 <= k < i + 1
      ensures !Agree(h264, key, Look(caps[k]), true)
    {
      if k > 0 {
        assert caps[k] == caps[1..][k - 1];
      }
    }
  }

  ghost predicate DistinctPts(codecs: seq<Codec>) {
    forall i, j :: 0 <= i < j < |codecs| ==> codecs[i].pt != codecs[j].pt
  }

  /** The first codec with the given payload type. */
  function FirstByPt(codecs: seq<Codec>, pt: int): (r: Option<Codec>)
    ensures r.Some? ==> r.value in codecs && r.value.pt == pt
    ensures r.None? ==> forall c :: c in codecs ==> c.pt != pt
  {
    if codecs == [] then None
    else if codecs[0].pt == pt then Some(codecs[0])
    else FirstByPt(codecs[1..], pt)
  }

  /** The first RTX codec whose `apt` is the given payload type. */
  function FirstRtxFor(codecs: seq<Codec>, pt: int): (r: Option<Codec>)
    ensures r.Some? ==> r.value in codecs && r.value.IsRtx() && r.value.Apt() == Some(pt)
    ensures r.None? ==> forall c :: c in codecs ==> !(c.IsRtx() && c.Apt() == Some(pt))
  {
    if codecs == [] then None
    else if codecs[0].IsRtx() && codecs[0].Apt() == Some(pt) then Some(codecs[0])
    else FirstRtxFor(codecs[1..], pt)
  }

  /** The first router codec that a producer codec matches strictly. */
  function FirstMatch(h264: H264, codec: CodecToMatch, caps: seq<Codec>): (r: Option<Codec>)
    ensures r.Some? ==> r.value in caps && Matches(h264, codec, r.value.ToMatch(), true)
    ensures r.None? ==> forall c :: c in caps ==> !Matches(h264, codec, c.ToMatch(), true)
  {
    if caps == [] then None
    else if Matches(h264, codec, caps[0].ToMatch(), true) then Some(caps[0])
    else FirstMatch(h264, codec, caps[1..])
  }

  /** These lookups give the first codec there is. */
  lemma {:induction false} LookupsAreFirst(codecs: seq<Codec>, pt: int)
    ensures FirstByPt(codecs, pt).Some? ==>
              exists i :: 0 <= i < |codecs| && codecs[i] == FirstByPt(codecs, pt).value
                          && forall k :: 0 <= k < i ==> codecs[k].pt != pt
    ensures FirstRtxFor(codecs, pt).Some? ==>
              exists i :: 0 <= i < |codecs| && codecs[i] == FirstRtxFor(codecs, pt).value
                          && forall k :: 0 <= k < i ==> !(codecs[k].IsRtx() && codecs[k].Apt() == Some(pt))
  {
    if codecs != [] {
      var others := codecs[1..];
      LookupsAreFirst(others, pt);
      assert forall i :: 0 < i < |codecs| ==> codecs[i] == others[i - 1];
      if codecs[0].pt != pt && FirstByPt(others, pt).Some? {
        var i :| 0 <= i < |others| && others[i] == FirstByPt(others, pt).value
                 && forall k :: 0 <= k < i ==> others[k].pt != pt;
        assert codecs[i + 1] == FirstByPt(codecs, pt).value;
      }
      if !(codecs[0].IsRtx() && codecs[0].Apt() == Some(pt)) && FirstRtxFor(others, pt).Some? {
        var i :| 0 <= i < |others| && others[i] == FirstRtxFor(others, pt).value
                 && forall k :: 0 <= k < i ==> !(others[k].IsRtx() && others[k].Apt() == Some(pt));
        assert codecs[i + 1] == FirstRtxFor(codecs, pt).value;
      }
    }
  }

  lemma DistinctPtsUnique(codecs: seq<Codec>, c: Codec)
    requires DistinctPts(codecs) && c in codecs
    ensures FirstByPt(codecs, c.pt) == Some(c)
  {
  }
}
