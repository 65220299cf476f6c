/** Deciding whether an endpoint can consume a producer, and the RTP parameters of the consumer. */
module Consumer {
  import opened Common
  import opened Rtp
  import opened RouterCapabilities
  import opened Consumable
  import opened PipeHops
  import opened UselessRtx
  import opened Scalability

  /** `TooManyLayers` is the panic of the Rust version when there are too many encodings for a scalability mode. */
  datatype ConsumerError = InvalidCapabilities | NoCompatibleMediaCodecs | TooManyLayers

  /** The first endpoint capability that matches a consumable codec. */
  function FirstCapability(h264: H264, caps: seq<CodecCapability>, codec: CodecToMatch): (r: Option<CodecCapability>)
    ensures r.Some? ==> r.value in caps && Matches(h264, r.value.ToMatch(), codec, true)
    ensures r.None? ==> forall x :: x in caps ==> !Matches(h264, x.ToMatch(), codec, true)
  {
    if caps == [] then None
    else if Matches(h264, caps[0].ToMatch(), codec, true) then Some(caps[0])
    else FirstCapability(h264, caps[1..], codec)
  }

  function Supported(h264: H264, caps: seq<CodecCapability>): Codec -> bool {
    (c: Codec) => FirstCapability(h264, caps, c.ToMatch()).Some?
  }

  predicate ValidCapabilities(caps: seq<CodecCapability>) {
    forall i :: 0 <= i < |caps| ==> ValidApt(caps[i].params)
  }

  /** At least one codec, the first of them a media codec. */
  predicate StartsWithMedia(codecs: seq<Codec>) {
    codecs != [] && !codecs[0].IsRtx()
  }

  method CanConsume(h264: H264, consumable: RtpParameters, caps: RemoteCaps) returns (r: Result<bool, ConsumerError>)
    ensures r == if ValidCapabilities(caps.codecs)
                 then Ok(StartsWithMedia(Filter(consumable.codecs, Supported(h264, caps.codecs))))
                 else Err(InvalidCapabilities)
  {
    if !ValidCapabilities(caps.codecs) {
      return Err(InvalidCapabilities);
    }
    var matching := [];
    for i := 0 to |consumable.codecs|
      invariant matching == Filter(consumable.codecs[..i], Supported(h264, caps.codecs))
    {
      PrefixStep(consumable.codecs, i);
      if FirstCapability(h264, caps.codecs, consumable.codecs[i].ToMatch()).Some? {
        matching := matching + [consumable.codecs[i]];
      }
    }
    assert consumable.codecs[..|consumable.codecs|] == consumable.codecs;
    r := Ok(matching != [] && !matching[0].IsRtx());
  }

  function KeepNack(enableRtx: bool): Feedback -> bool {
    (fb: Feedback) => enableRtx || !fb.Nack?
  }

  /** The consumable codecs that the endpoint supports, with the endpoint's feedback. */
  function MatchedCodecs(h264: H264, codecs: seq<Codec>, caps: seq<CodecCapability>, enableRtx: bool): seq<Codec> {
    if codecs == [] then [] else
    var done := MatchedCodecs(h264, Init(codecs), caps, enableRtx);
    var c := Last(codecs);
    var cap := FirstCapability(h264, caps, c.ToMatch());
    if (!enableRtx && c.IsRtx()) || cap.None? then done
    else done + [c.(feedback := Filter(cap.value.feedback, KeepNack(enableRtx)))]
  }

  function SupportedExtension(caps: seq<HeaderExtension>): ExtensionParameters -> bool {
    (ext: ExtensionParameters) =>
      exists i :: 0 <= i < |caps| && caps[i].preferredId == ext.id && caps[i].uri == ext.uri
  }

  predicate HasUri(extensions: seq<ExtensionParameters>, uri: ExtensionUri) {
    exists i :: 0 <= i < |extensions| && extensions[i].uri == uri
  }

  /** Feedback that may stay, given the negotiated extensions: Transport-CC if available, REMB otherwise. */
  function KeepBwe(extensions: seq<ExtensionParameters>): Feedback -> bool {
    (fb: Feedback) =>
      if HasUri(extensions, TransportWideCcDraft01) then !fb.GoogRemb?
      else if HasUri(extensions, AbsSendTime) then !fb.TransportCc?
      else !fb.GoogRemb? && !fb.TransportCc?
  }

  function ReduceFeedback(codecs: seq<Codec>, extensions: seq<ExtensionParameters>): (r: seq<Codec>)
    ensures |r| == |codecs|
    ensures forall i :: 0 <= i < |r| ==> r[i] == codecs[i].(feedback := Filter(codecs[i].feedback, KeepBwe(extensions)))
  {
    seq(|codecs|, i requires 0 <= i < |codecs| =>
      codecs[i].(feedback := Filter(codecs[i].feedback, KeepBwe(extensions))))
  }

  /** The mode of the first encoding; with simulcast, as many spatial layers as there are encodings. */
  function ReduceMode(encodings: seq<Encoding>): string {
    var mode := if encodings == [] then "" else encodings[0].settings.scalabilityMode;
    if |encodings| > 1 then PrintMode(|encodings|, TemporalLayers(mode)) else mode
  }

  /** The Rust version reads the mode that it makes for simulcast, and panics if it cannot. */
  predicate Reducible(encodings: seq<Encoding>) {
    |encodings| > 1 ==> ParseMode(ReduceMode(encodings)).Some?
  }

  /** That is exactly up to 99 encodings; the mode then has a spatial layer per encoding and keeps its temporal ones. */
  lemma ReducibleExactly(encodings: seq<Encoding>)
    ensures Reducible(encodings) <==> |encodings| <= 99
    ensures 1 < |encodings| <= 99 ==>
              ParseMode(ReduceMode(encodings)) ==
              Some(Layers(|encodings|, TemporalLayers(encodings[0].settings.scalabilityMode)))
  {
    if |encodings| > 1 {
      PrintParseExactly(|encodings|, TemporalLayers(encodings[0].settings.scalabilityMode));
    }
  }

  function MaxBitrate(encodings: seq<Encoding>): Option<u32> {
    if encodings == [] then None else
    var others, rate := MaxBitrate(Init(encodings)), Last(encodings).settings.maxBitrate;
    if others.None? || (rate.Some? && rate.value > others.value) then rate else others
  }

  /** The settings of the single encoding of a consumer that is not piped. */
  function ReduceSettings(encodings: seq<Encoding>): EncodingSettings {
    EncodingSettings(None, ReduceMode(encodings), None, MaxBitrate(encodings))
  }

  /** A consumer's bitrate is the highest of any encoding, if any has one. */
  lemma {:induction false} MaxBitrateExact(encodings: seq<Encoding>)
    ensures HighestBitrate(encodings, MaxBitrate(encodings))
  {
    if encodings != [] {
      MaxBitrateExact(Init(encodings));
      assert encodings == Init(encodings) + [Last(encodings)];
      assert Last(encodings) in encodings && forall e :: e in Init(encodings) ==> e in encodings;
    }
  }

  function ConsumerEncodings(encodings: seq<Encoding>, pipe: bool, rtx: bool, ssrc: nat, rtxSsrc: nat): seq<Encoding>
  {
    if pipe then PipeEncodings(encodings, rtx, ssrc, rtxSsrc)
    else [Encoding(Some(ssrc), None, None, if rtx then Some(ssrc + 1) else None, ReduceSettings(encodings))]
  }

  /** Generating the parameters, written with the version-independent filter for useless RTX codecs. */
  ghost function ConsumerParameters(h264: H264, consumable: RtpParameters, remote: RemoteCaps, pipe: bool,
                                    enableRtx: bool, ssrc: nat, rtxSsrc: nat)
    : Result<RtpParameters, ConsumerError>
  {
    if !ValidCapabilities(remote.codecs) then Err(InvalidCapabilities) else
    var kept := Sanitize(MatchedCodecs(h264, consumable.codecs, remote.codecs, enableRtx));
    if !StartsWithMedia(kept) then Err(NoCompatibleMediaCodecs) else
    if !pipe && !Reducible(consumable.encodings) then Err(TooManyLayers) else
    var extensions := Filter(consumable.headerExtensions, SupportedExtension(remote.headerExtensions));
    Ok(RtpParameters(None, ReduceFeedback(kept, extensions), extensions,
                     ConsumerEncodings(consumable.encodings, pipe, HasRtx(kept), ssrc, rtxSsrc),
                     consumable.rtcp))
  }

  method GetConsumerRtpParameters(h264: H264, consumable: RtpParameters, remote: RemoteCaps, pipe: bool,
                                  enableRtx: bool, ssrc: nat, rtxSsrc: nat)
    returns (r: Result<RtpParameters, ConsumerError>)
    ensures r == ConsumerParameters(h264, consumable, remote, pipe, enableRtx, ssrc, rtxSsrc)
  {
    if !ValidCapabilities(remote.codecs) {
      return Err(InvalidCapabilities);
    }
    var matched := MatchCodecs(h264, consumable.codecs, remote.codecs, enableRtx);
    var kept, rtxSupported := RemoveByIndices(matched);
    if kept == [] || kept[0].IsRtx() {
      return Err(NoCompatibleMediaCodecs);
    }
    var extensions := Filter(consumable.headerExtensions, SupportedExtension(remote.headerExtensions));
    var codecs := kept;
    for i := 0 to |kept|
      invariant |codecs| == |kept|
      invariant forall k :: 0 <= k < i ==> codecs[k] == ReduceFeedback(kept, extensions)[k]
      invariant forall k :: i <= k < |kept| ==> codecs[k] == kept[k]
    {
      codecs := codecs[i := codecs[i].(feedback := Filter(codecs[i].feedback, KeepBwe(extensions)))];
    }
    assert codecs == ReduceFeedback(kept, extensions);
    if !pipe && !Reducible(consumable.encodings) {
      return Err(TooManyLayers);
    }
    var encodings := ConsumerEncodings(consumable.encodings, pipe, rtxSupported, ssrc, rtxSsrc);
    r := Ok(RtpParameters(None, codecs, extensions, encodings, consumable.rtcp));
  }

  method MatchCodecs(h264: H264, codecs: seq<Codec>, caps: seq<CodecCapability>, enableRtx: bool)
    returns (out: seq<Codec>)
    ensures out == MatchedCodecs(h264, codecs, caps, enableRtx)
  {
    out := [];
    for i := 0 to |codecs|
      invariant out == MatchedCodecs(h264, codecs[..i], caps, enableRtx)
    {
      PrefixStep(codecs, i);
      if enableRtx || !codecs[i].IsRtx() {
        var cap := FirstCapability(h264, caps, codecs[i].ToMatch());
        if cap.Some? {
          out := out + [codecs[i].(feedback := Filter(cap.value.feedback, KeepNack(enableRtx)))];
        }
      }
    }
    assert codecs[..|codecs|] == codecs;
  }

  // ----- which codecs a consumer gets -----

  /** The `apt` of `d` is the payload type of a supported codec of the list. */
  ghost predicate NamesSupported(h264: H264, codecs: seq<Codec>, caps: seq<CodecCapability>, d: Codec) {
    exists m :: m in codecs && Supported(h264, caps)(m) && d.Apt() == Some(m.pt)
  }

  /** Whether a consumer gets a codec of the list: it is supported, and if it is an RTX codec, then RTX is enabled and
      it names a supported codec. */
  ghost predicate IsConsumed(h264: H264, codecs: seq<Codec>, caps: seq<CodecCapability>, enableRtx: bool, d: Codec) {
    Supported(h264, caps)(d) && (d.IsRtx() ==> enableRtx && NamesSupported(h264, codecs, caps, d))
  }

  ghost function Consumes(h264: H264, codecs: seq<Codec>, caps: seq<CodecCapability>, enableRtx: bool): Codec -> bool {
    (d: Codec) => IsConsumed(h264, codecs, caps, enableRtx, d)
  }

  /** The consumable codec `d` appears among the matched ones as `c`. */
  ghost predicate MatchedAs(h264: H264, caps: seq<CodecCapability>, enableRtx: bool, d: Codec, c: Codec) {
    var cap := FirstCapability(h264, caps, d.ToMatch());
    cap.Some? && (enableRtx || !d.IsRtx()) && c == d.(feedback := Filter(cap.value.feedback, KeepNack(enableRtx)))
  }

  lemma {:induction false} MatchedMember(h264: H264, codecs: seq<Codec>, caps: seq<CodecCapability>, enableRtx: bool,
                                         c: Codec)
    ensures c in MatchedCodecs(h264, codecs, caps, enableRtx) <==>
            exists d :: d in codecs && MatchedAs(h264, caps, enableRtx, d, c)
  {
    if codecs != [] {
      MatchedMember(h264, Init(codecs), caps, enableRtx, c);
      assert codecs == Init(codecs) + [Last(codecs)];
      assert Last(codecs) in codecs && forall d :: d in codecs <==> d in Init(codecs) || d == Last(codecs);
      assert c in MatchedCodecs(h264, codecs, caps, enableRtx) <==>
             || c in MatchedCodecs(h264, Init(codecs), caps, enableRtx)
             || MatchedAs(h264, caps, enableRtx, Last(codecs), c);
    }
  }

  lemma UsefulExactly(h264: H264, codecs: seq<Codec>, caps: seq<CodecCapability>, enableRtx: bool, d: Codec, c: Codec)
    requires MatchedAs(h264, caps, enableRtx, d, c)
    ensures UsefulIn(MatchedCodecs(h264, codecs, caps, enableRtx))(c) <==> Consumes(h264, codecs, caps, enableRtx)(d)
  {
    var matched := MatchedCodecs(h264, codecs, caps, enableRtx);
    if d.IsRtx() && NamesSupported(h264, codecs, caps, d) {
      var m :| m in codecs && Supported(h264, caps)(m) && d.Apt() == Some(m.pt);
      var named := m.(feedback := Filter(FirstCapability(h264, caps, m.ToMatch()).value.feedback, KeepNack(enableRtx)));
      MatchedMember(h264, codecs, caps, enableRtx, named);
      assert named in matched && named.pt == m.pt;
      assert FirstByPt(matched, c.Apt().value).Some?;
    }
    if d.IsRtx() && UsefulIn(matched)(c) {
      var named := FirstByPt(matched, c.Apt().value).value;
      MatchedMember(h264, codecs, caps, enableRtx, named);
      var m :| m in codecs && MatchedAs(h264, caps, enableRtx, m, named);
      assert Supported(h264, caps)(m) && d.Apt() == Some(m.pt);
    }
    assert Consumes(h264, codecs, caps, enableRtx)(d) <==> !d.IsRtx() || NamesSupported(h264, codecs, caps, d);
    assert UsefulIn(matched)(c) <==> !d.IsRtx() || NamesSupported(h264, codecs, caps, d);
  }

  ghost predicate AllMatchedAs(h264: H264, caps: seq<CodecCapability>, enableRtx: bool, from: seq<Codec>,
                               to: seq<Codec>)
  {
    |to| == |from| && forall i :: 0 <= i < |from| ==> MatchedAs(h264, caps, enableRtx, from[i], to[i])
  }

  /** Matching and removing useless RTX codecs leaves the codecs that the consumer is to get, in their order. */
  lemma KeptInOrder(h264: H264, codecs: seq<Codec>, caps: seq<CodecCapability>, enableRtx: bool)
    ensures AllMatchedAs(h264, caps, enableRtx, Filter(codecs, Consumes(h264, codecs, caps, enableRtx)),
                         Sanitize(MatchedCodecs(h264, codecs, caps, enableRtx)))
  {
    KeptPrefix(h264, codecs, caps, enableRtx, |codecs|);
    assert codecs[..|codecs|] == codecs;
  }

  lemma {:induction false} KeptPrefix(h264: H264, codecs: seq<Codec>, caps: seq<CodecCapability>, enableRtx: bool,
                                      n: nat)
    requires n <= |codecs|
    ensures AllMatchedAs(h264, caps, enableRtx, Filter(codecs[..n], Consumes(h264, codecs, caps, enableRtx)),
                         Filter(MatchedCodecs(h264, codecs[..n], caps, enableRtx),
                                UsefulIn(MatchedCodecs(h264, codecs, caps, enableRtx))))
    decreases n
  {
    if n > 0 {
      KeptPrefix(h264, codecs, caps, enableRtx, n - 1);
      PrefixStep(codecs, n - 1);
      var d := codecs[n - 1];
      forall c | MatchedAs(h264, caps, enableRtx, d, c)
        ensures UsefulIn(MatchedCodecs(h264, codecs, caps, enableRtx))(c) <==>
                Consumes(h264, codecs, caps, enableRtx)(d)
      {
        UsefulExactly(h264, codecs, caps, enableRtx, d, c);
      }
      KeptNext(h264, codecs[..n], caps, enableRtx, Consumes(h264, codecs, caps, enableRtx),
               UsefulIn(MatchedCodecs(h264, codecs, caps, enableRtx)));
    }
  }

  lemma KeptNext(h264: H264, codecs: seq<Codec>, caps: seq<CodecCapability>, enableRtx: bool, keep: Codec -> bool,
                 useful: Codec -> bool)
    requires codecs != []
    requires AllMatchedAs(h264, caps, enableRtx, Filter(Init(codecs), keep),
                          Filter(MatchedCodecs(h264, Init(codecs), caps, enableRtx), useful))
    requires keep(Last(codecs)) ==> Supported(h264, caps)(Last(codecs)) && (enableRtx || !Last(codecs).IsRtx())
    requires forall c :: MatchedAs(h264, caps, enableRtx, Last(codecs), c) ==> (useful(c) <==> keep(Last(codecs)))
    ensures AllMatchedAs(h264, caps, enableRtx, Filter(codecs, keep),
                         Filter(MatchedCodecs(h264, codecs, caps, enableRtx), useful))
  {
    var d, before := Last(codecs), MatchedCodecs(h264, Init(codecs), caps, enableRtx);
    var cap := FirstCapability(h264, caps, d.ToMatch());
    if (enableRtx || !d.IsRtx()) && cap.Some? {
      var c := d.(feedback := Filter(cap.value.feedback, KeepNack(enableRtx)));
      assert MatchedAs(h264, caps, enableRtx, d, c);
      assert MatchedCodecs(h264, codecs, caps, enableRtx) == before + [c];
      FilterAppend(before, c, useful);
      if keep(d) {
        MatchedAppend(h264, caps, enableRtx, Filter(Init(codecs), keep), Filter(before, useful), d, c);
      } else {
        assert Filter(before, useful) + [] == Filter(before, useful);
      }
    } else {
      assert MatchedCodecs(h264, codecs, caps, enableRtx) == before && !keep(d);
    }
  }

  lemma MatchedAppend(h264: H264, caps: seq<CodecCapability>, enableRtx: bool, from: seq<Codec>, to: seq<Codec>,
                      d: Codec, c: Codec)
    requires AllMatchedAs(h264, caps, enableRtx, from, to) && MatchedAs(h264, caps, enableRtx, d, c)
    ensures AllMatchedAs(h264, caps, enableRtx, from + [d], to + [c])
  {
  }

  lemma FilterAppend(codecs: seq<Codec>, c: Codec, keep: Codec -> bool)
    ensures Filter(codecs + [c], keep) == Filter(codecs, keep) + if keep(c) then [c] else []
  {
    FilterConcat(codecs, [c], keep);
    assert Filter([c], keep) == if keep(c) then [c] else [];
  }

  // ----- the first codec decides -----

  /** The first codec that `keep` lets through is a media codec. */
  ghost predicate MediaLeads(codecs: seq<Codec>, keep: Codec -> bool) {
    exists f :: Leads(codecs, keep, f) && !codecs[f].IsRtx()
  }

  ghost predicate Leads(codecs: seq<Codec>, keep: Codec -> bool, f: int) {
    0 <= f < |codecs| && keep(codecs[f]) && forall k :: 0 <= k < f ==> !keep(codecs[k])
  }

  lemma {:induction false} FilterLead(codecs: seq<Codec>, keep: Codec -> bool) returns (f: nat)
    requires Filter(codecs, keep) != []
    ensures Leads(codecs, keep, f) && codecs[f] == Filter(codecs, keep)[0]
  {
    if Filter(Init(codecs), keep) != [] {
      f := FilterLead(Init(codecs), keep);
      assert forall k :: 0 <= k < f ==> codecs[k] == Init(codecs)[k];
    } else {
      f := |codecs| - 1;
      forall k | 0 <= k < f
        ensures !keep(codecs[k])
      {
        assert codecs[k] in Init(codecs);
        FilterMember(Init(codecs), keep, codecs[k]);
      }
    }
  }

  /** The first of the codecs that `keep` lets through, when there is one at `i`. */
  lemma LeadBefore(codecs: seq<Codec>, keep: Codec -> bool, i: nat) returns (f: nat)
    requires i < |codecs| && keep(codecs[i])
    ensures Leads(codecs, keep, f) && f <= i
  {
    FilterMember(codecs, keep, codecs[i]);
    f := FilterLead(codecs, keep);
  }

  lemma MediaLeadsExactly(codecs: seq<Codec>, keep: Codec -> bool)
    ensures StartsWithMedia(Filter(codecs, keep)) <==> MediaLeads(codecs, keep)
  {
    if MediaLeads(codecs, keep) {
      var f :| Leads(codecs, keep, f) && !codecs[f].IsRtx();
      FilterMember(codecs, keep, codecs[f]);
      var g := FilterLead(codecs, keep);
      assert f == g;
    }
    if StartsWithMedia(Filter(codecs, keep)) {
      var g := FilterLead(codecs, keep);
    }
  }

  ghost predicate CanConsumeSpec(h264: H264, codecs: seq<Codec>, caps: seq<CodecCapability>) {
    ValidCapabilities(caps) && StartsWithMedia(Filter(codecs, Supported(h264, caps)))
  }

  ghost predicate ConsumerPossible(h264: H264, codecs: seq<Codec>, caps: seq<CodecCapability>, enableRtx: bool) {
    ValidCapabilities(caps) && StartsWithMedia(Sanitize(MatchedCodecs(h264, codecs, caps, enableRtx)))
  }

  /** A consumer is possible exactly when the first codec it is to get is a media codec. */
  lemma PossibleExactly(h264: H264, codecs: seq<Codec>, caps: seq<CodecCapability>, enableRtx: bool)
    ensures ConsumerPossible(h264, codecs, caps, enableRtx) <==>
            ValidCapabilities(caps) && MediaLeads(codecs, Consumes(h264, codecs, caps, enableRtx))
  {
    KeptInOrder(h264, codecs, caps, enableRtx);
    MediaLeadsExactly(codecs, Consumes(h264, codecs, caps, enableRtx));
  }

  /** If `canConsume` says so, a consumer can be made, for every `pipe` and `enableRtx`, exactly if its encodings can be
      reduced or it is piped. */
  lemma CanConsumeSound(h264: H264, consumable: RtpParameters, remote: RemoteCaps, pipe: bool, enableRtx: bool,
                        ssrc: nat, rtxSsrc: nat)
    requires CanConsumeSpec(h264, consumable.codecs, remote.codecs)
    ensures ConsumerParameters(h264, consumable, remote, pipe, enableRtx, ssrc, rtxSsrc).Ok? <==>
            pipe || |consumable.encodings| <= 99
  {
    ReducibleExactly(consumable.encodings);
    AcceptedPossible(h264, consumable.codecs, remote.codecs, enableRtx);
  }

  lemma AcceptedPossible(h264: H264, codecs: seq<Codec>, caps: seq<CodecCapability>, enableRtx: bool)
    requires CanConsumeSpec(h264, codecs, caps)
    ensures ConsumerPossible(h264, codecs, caps, enableRtx)
  {
    MediaLeadsExactly(codecs, Supported(h264, caps));
    var f :| Leads(codecs, Supported(h264, caps), f) && !codecs[f].IsRtx();
    assert Leads(codecs, Consumes(h264, codecs, caps, enableRtx), f);
    PossibleExactly(h264, codecs, caps, enableRtx);
  }

  // ----- what RTX decides -----

  ghost predicate SomeMediaSupported(h264: H264, codecs: seq<Codec>, caps: seq<CodecCapability>) {
    exists i :: MediaSupportedAt(h264, codecs, caps, i)
  }

  ghost predicate MediaSupportedAt(h264: H264, codecs: seq<Codec>, caps: seq<CodecCapability>, i: int) {
    0 <= i < |codecs| && !codecs[i].IsRtx() && Supported(h264, caps)(codecs[i])
  }

  ghost predicate NoMediaBefore(h264: H264, codecs: seq<Codec>, caps: seq<CodecCapability>, r: int) {
    forall m :: 0 <= m < r ==> !MediaSupportedAt(h264, codecs, caps, m)
  }

  /** Without RTX a consumer is possible exactly when some media codec is supported. */
  lemma PossibleWithoutRtx(h264: H264, codecs: seq<Codec>, caps: seq<CodecCapability>)
    ensures ConsumerPossible(h264, codecs, caps, false) <==>
            ValidCapabilities(caps) && SomeMediaSupported(h264, codecs, caps)
  {
    PossibleExactly(h264, codecs, caps, false);
    var keep := Consumes(h264, codecs, caps, false);
    if MediaLeads(codecs, keep) {
      var f :| Leads(codecs, keep, f) && !codecs[f].IsRtx();
      assert MediaSupportedAt(h264, codecs, caps, f);
    }
    if SomeMediaSupported(h264, codecs, caps) {
      var i :| MediaSupportedAt(h264, codecs, caps, i);
      var f := LeadBefore(codecs, keep, i);
    }
  }

  /** A supported RTX codec that names a supported codec stands before all supported media codecs. */
  ghost predicate UsefulRtxLeads(h264: H264, codecs: seq<Codec>, caps: seq<CodecCapability>) {
    exists r :: UsefulRtxAt(h264, codecs, caps, r) && NoMediaBefore(h264, codecs, caps, r)
  }

  ghost predicate UsefulRtxAt(h264: H264, codecs: seq<Codec>, caps: seq<CodecCapability>, r: int) {
    && 0 <= r < |codecs| && codecs[r].IsRtx() && Supported(h264, caps)(codecs[r])
    && NamesSupported(h264, codecs, caps, codecs[r])
  }

  /** With RTX a consumer is possible exactly when it is without, and no useful RTX codec leads. */
  lemma RtxDecidesExactly(h264: H264, codecs: seq<Codec>, caps: seq<CodecCapability>)
    ensures ConsumerPossible(h264, codecs, caps, true) <==>
            ConsumerPossible(h264, codecs, caps, false) && !UsefulRtxLeads(h264, codecs, caps)
  {
    PossibleExactly(h264, codecs, caps, true);
    PossibleWithoutRtx(h264, codecs, caps);
    var keep := Consumes(h264, codecs, caps, true);
    if MediaLeads(codecs, keep) {
      var f :| Leads(codecs, keep, f) && !codecs[f].IsRtx();
      assert MediaSupportedAt(h264, codecs, caps, f);
      forall r | UsefulRtxAt(h264, codecs, caps, r)
        ensures !NoMediaBefore(h264, codecs, caps, r)
      {
        assert keep(codecs[r]);
        assert f < r;
      }
    }
    if SomeMediaSupported(h264, codecs, caps) {
      var i :| MediaSupportedAt(h264, codecs, caps, i);
      var f := LeadBefore(codecs, keep, i);
      LeadBlocks(h264, codecs, caps, f);
    }
  }

  lemma LeadBlocks(h264: H264, codecs: seq<Codec>, caps: seq<CodecCapability>, f: nat)
    requires Leads(codecs, Consumes(h264, codecs, caps, true), f)
    ensures codecs[f].IsRtx() ==> UsefulRtxLeads(h264, codecs, caps)
  {
    if codecs[f].IsRtx() {
      forall m | 0 <= m < f
        ensures !MediaSupportedAt(h264, codecs, caps, m)
      {
        assert !Consumes(h264, codecs, caps, true)(codecs[m]);
      }
      assert UsefulRtxAt(h264, codecs, caps, f);
    }
  }

  /** On linked lists with distinct payload types, enabling RTX never decides whether a consumer is possible. */
  lemma RtxNeverDecides(h264: H264, codecs: seq<Codec>, caps: seq<CodecCapability>)
    requires DistinctPts(codecs) && Linked(codecs)
    ensures ConsumerPossible(h264, codecs, caps, true) <==> ConsumerPossible(h264, codecs, caps, false)
  {
    RtxDecidesExactly(h264, codecs, caps);
    forall r | UsefulRtxAt(h264, codecs, caps, r)
      ensures !NoMediaBefore(h264, codecs, caps, r)
    {
      var m :| m in codecs && Supported(h264, caps)(m) && codecs[r].Apt() == Some(m.pt);
      assert LinkedAt(codecs, r);
      DistinctPtsUnique(codecs, m);
      DistinctPtsUnique(codecs, codecs[r - 1]);
      assert MediaSupportedAt(h264, codecs, caps, r - 1);
    }
  }

  /** H264 profiles are compatible when they are the same, so compatibility is symmetric and transitive. */
  ghost predicate SameProfiles(h264: H264) {
    && (forall a, x, b, y :: h264(a, x, b, y) ==> h264(b, y, a, x))
    && (forall a, x, b, y, c, z :: h264(a, x, b, y) && h264(b, y, c, z) ==> h264(a, x, c, z))
  }

  lemma MatchesAlong(h264: H264, a: CodecToMatch, b: CodecToMatch, c: CodecToMatch, d: CodecToMatch)
    requires SameProfiles(h264)
    requires Matches(h264, a, b, true) && Matches(h264, b, c, true) && Matches(h264, d, c, true)
    ensures Matches(h264, a, d, true)
  {
  }

  /** On the codecs that a router derives from a producer's, RTX never decides either, however often producer codecs
      share a router codec, provided that H264 compatibility is symmetric and transitive. */
  lemma RtxNeverDecidesOnBlocks(h264: H264, keys: seq<CodecToMatch>, router: seq<Codec>, caps: seq<CodecCapability>)
    requires NegotiableCaps(router) && MatchedKeys(h264, keys, router) && SameProfiles(h264)
    ensures var codecs := Blocks(h264, keys, router);
            ConsumerPossible(h264, codecs, caps, true) <==> ConsumerPossible(h264, codecs, caps, false)
  {
    var codecs := Blocks(h264, keys, router);
    RtxDecidesExactly(h264, codecs, caps);
    forall r | UsefulRtxAt(h264, codecs, caps, r)
      ensures !NoMediaBefore(h264, codecs, caps, r)
    {
      BlocksLinked(h264, keys, router);
      assert LinkedAt(codecs, r);
      var m :| m in codecs && Supported(h264, caps)(m) && codecs[r].Apt() == Some(m.pt);
      assert codecs[r - 1] in codecs;
      SharedSupport(h264, keys, router, caps, codecs[r - 1], m);
      assert MediaSupportedAt(h264, codecs, caps, r - 1);
    }
  }

  /** Codecs that share a payload type share the router codec, so whoever supports one supports the other. */
  lemma SharedSupport(h264: H264, keys: seq<CodecToMatch>, router: seq<Codec>, caps: seq<CodecCapability>, c: Codec,
                      m: Codec)
    requires NegotiableCaps(router) && MatchedKeys(h264, keys, router) && SameProfiles(h264)
    requires c in Blocks(h264, keys, router) && m in Blocks(h264, keys, router)
    requires !c.IsRtx() && c.pt == m.pt && Supported(h264, caps)(m)
    ensures Supported(h264, caps)(c)
  {
    var k := BlockKey(h264, keys, router, c);
    var cap := FirstMatch(h264, k, router).value;
    BlockMedia(h264, keys, router, m, cap);
    var j := BlockKey(h264, keys, router, m);
    DistinctPtsUnique(router, cap);
    DistinctPtsUnique(router, FirstMatch(h264, j, router).value);
    var x := FirstCapability(h264, caps, j).value;
    MatchesAlong(h264, x.ToMatch(), j, cap.ToMatch(), k);
  }

  /** A media codec of the blocks looks to matching like the producer codec it stands for. */
  lemma BlockKey(h264: H264, keys: seq<CodecToMatch>, router: seq<Codec>, c: Codec) returns (k: CodecToMatch)
    requires MatchedKeys(h264, keys, router) && c in Blocks(h264, keys, router) && !c.IsRtx()
    ensures k in keys && c.ToMatch() == k
    ensures FirstMatch(h264, k, router).Some? && FirstMatch(h264, k, router).value.pt == c.pt
  {
    BlocksMember(h264, keys, router, c);
    k :| k in keys && FromKey(h264, router, c, k);
  }

  /** A codec of the blocks that has the payload type of a media codec of the router is a media codec. */
  lemma BlockMedia(h264: H264, keys: seq<CodecToMatch>, router: seq<Codec>, c: Codec, cap: Codec)
    requires NegotiableCaps(router) && c in Blocks(h264, keys, router)
    requires cap in router && !cap.IsRtx() && c.pt == cap.pt
    ensures !c.IsRtx()
  {
    BlocksMember(h264, keys, router, c);
    var k :| k in keys && FromKey(h264, router, c, k);
    DistinctPtsUnique(router, cap);
    if Some(c) == FirstRtxFor(router, FirstMatch(h264, k, router).value.pt) {
      DistinctPtsUnique(router, c);
    } else {
      DistinctPtsUnique(router, FirstMatch(h264, k, router).value);
    }
  }

  /** Without that proviso it does, whenever two codecs of a producer share a router codec and the endpoint supports
      the second of them only, and RTX: the RTX codec of the first one then leads, which it does not when RTX is
      disabled. */
  lemma RtxDecides(h264: H264, media: Codec, rtx: Codec, k: CodecToMatch, j: CodecToMatch, x: CodecCapability)
    requires NegotiableCaps([media, rtx]) && !media.IsRtx() && rtx.IsRtx() && ValidApt(x.params)
    requires Matches(h264, k, media.ToMatch(), true) && Matches(h264, j, media.ToMatch(), true)
    requires !Matches(h264, x.ToMatch(), k, true) && Matches(h264, x.ToMatch(), j, true)
    ensures MatchedKeys(h264, [k, j], [media, rtx])
    ensures var codecs := Blocks(h264, [k, j], [media, rtx]);
            && ConsumerPossible(h264, codecs, Endpoint(x, rtx), false)
            && !ConsumerPossible(h264, codecs, Endpoint(x, rtx), true)
  {
    assert LinkedAt([media, rtx], 1);
    TwoBlocks(h264, media, rtx, k, j);
    var first, second := media.(params := k.params), media.(params := j.params);
    assert first.ToMatch() == k && second.ToMatch() == j;
    SecondOnly(h264, first, second, rtx, x);
  }

  /** A compatibility that is not transitive: a codec without a profile goes with every other. */
  function LenientProfiles(): H264 {
    (a: Option<string>, x: bool, b: Option<string>, y: bool) => a.None? || b.None? || a == b
  }

  /** There are such a router, producer and endpoint. */
  lemma RtxMayDecide() returns (router: seq<Codec>, keys: seq<CodecToMatch>, caps: seq<CodecCapability>)
    ensures NegotiableCaps(router) && MatchedKeys(LenientProfiles(), keys, router)
    ensures ConsumerPossible(LenientProfiles(), Blocks(LenientProfiles(), keys, router), caps, false)
    ensures !ConsumerPossible(LenientProfiles(), Blocks(LenientProfiles(), keys, router), caps, true)
  {
    var media, rtx := Codec(MimeType.H264, 101, 90000, None, map[], []),
                      Codec(VideoRtx, 102, 90000, None, map["apt" := Num(101)], []);
    var high, base := map["profile-level-id" := Str("640032")], map["profile-level-id" := Str("42e01f")];
    var k, j := CodecToMatch(MimeType.H264, 90000, None, high), CodecToMatch(MimeType.H264, 90000, None, base);
    var x := CodecCapability(MimeType.H264, None, 90000, None, base, []);
    router, keys, caps := [media, rtx], [k, j], Endpoint(x, rtx);
    assert !Matches(LenientProfiles(), x.ToMatch(), k, true) by {
      assert "640032"[0] != "42e01f"[0];
    }
    RtxDecides(LenientProfiles(), media, rtx, k, j, x);
  }

  /** An endpoint that supports the second of two codecs with the same payload type, and RTX. */
  lemma SecondOnly(h264: H264, first: Codec, second: Codec, rtx: Codec, x: CodecCapability)
    requires !first.IsRtx() && !second.IsRtx() && rtx.IsRtx() && rtx.Apt() == Some(second.pt) && ValidApt(x.params)
    requires !Matches(h264, x.ToMatch(), first.ToMatch(), true) && Matches(h264, x.ToMatch(), second.ToMatch(), true)
    ensures ConsumerPossible(h264, [first, rtx, second, rtx], Endpoint(x, rtx), false)
    ensures !ConsumerPossible(h264, [first, rtx, second, rtx], Endpoint(x, rtx), true)
  {
    var codecs, caps := [first, rtx, second, rtx], Endpoint(x, rtx);
    EndpointSupports(h264, x, rtx, first);
    EndpointSupports(h264, x, rtx, second);
    EndpointSupports(h264, x, rtx, rtx);
    assert MediaSupportedAt(h264, codecs, caps, 2);
    assert codecs[2] in codecs && UsefulRtxAt(h264, codecs, caps, 1) && NoMediaBefore(h264, codecs, caps, 1);
    PossibleWithoutRtx(h264, codecs, caps);
    RtxDecidesExactly(h264, codecs, caps);
  }

  /** The blocks of two producer codecs that match the one media codec of a router. */
  lemma TwoBlocks(h264: H264, media: Codec, rtx: Codec, k: CodecToMatch, j: CodecToMatch)
    requires !media.IsRtx() && rtx.IsRtx() && rtx.Apt() == Some(media.pt)
    requires Matches(h264, k, media.ToMatch(), true) && Matches(h264, j, media.ToMatch(), true)
    ensures Blocks(h264, [k, j], [media, rtx]) == [media.(params := k.params), rtx, media.(params := j.params), rtx]
    ensures MatchedKeys(h264, [k, j], [media, rtx])
  {
    var router := [media, rtx];
    assert FirstRtxFor(router[1..], media.pt) == Some(rtx);
    assert BlockFor(h264, k, router) == [media.(params := k.params), rtx];
    assert BlockFor(h264, j, router) == [media.(params := j.params), rtx];
    assert Init([k, j]) == [k] && Last([k, j]) == j && Init([k]) == [] && Last([k]) == k;
    assert Blocks(h264, [k], router) == [] + BlockFor(h264, k, router);
  }

  // ----- what canConsume refuses -----

  /** The endpoint supports an RTX codec of the list before any media codec. */
  ghost predicate RtxLeads(h264: H264, codecs: seq<Codec>, caps: seq<CodecCapability>) {
    exists r :: RtxSupportedAt(h264, codecs, caps, r) && NoMediaBefore(h264, codecs, caps, r)
  }

  ghost predicate RtxSupportedAt(h264: H264, codecs: seq<Codec>, caps: seq<CodecCapability>, r: int) {
    0 <= r < |codecs| && codecs[r].IsRtx() && Supported(h264, caps)(codecs[r])
  }

  /** Of the endpoints that a consumer can be made for, with or without RTX, `canConsume` refuses exactly those that
      support some RTX codec of the list before any media codec of it. */
  lemma RefusedExactly(h264: H264, codecs: seq<Codec>, caps: seq<CodecCapability>, enableRtx: bool)
    requires ConsumerPossible(h264, codecs, caps, enableRtx)
    ensures CanConsumeSpec(h264, codecs, caps) <==> !RtxLeads(h264, codecs, caps)
  {
    var keep := Supported(h264, caps);
    MediaLeadsExactly(codecs, keep);
    RtxDecidesExactly(h264, codecs, caps);
    PossibleWithoutRtx(h264, codecs, caps);
    var i :| MediaSupportedAt(h264, codecs, caps, i);
    var f := LeadBefore(codecs, keep, i);
    if codecs[f].IsRtx() {
      assert RtxSupportedAt(h264, codecs, caps, f) && NoMediaBefore(h264, codecs, caps, f);
    } else {
      assert MediaSupportedAt(h264, codecs, caps, f);
    }
  }

  /** `canConsume` accepts every endpoint that a consumer can be made for. */
  ghost predicate CanConsumeComplete(h264: H264, codecs: seq<Codec>, enableRtx: bool) {
    forall caps :: ConsumerPossible(h264, codecs, caps, enableRtx) ==> CanConsumeSpec(h264, codecs, caps)
  }

  /** `f` is the first media codec of the list that the endpoint codec `x` matches. */
  ghost predicate FirstMedia(h264: H264, codecs: seq<Codec>, x: CodecCapability, f: int) {
    && 0 <= f < |codecs| && !codecs[f].IsRtx() && Matches(h264, x.ToMatch(), codecs[f].ToMatch(), true)
    && forall m :: 0 <= m < f && !codecs[m].IsRtx() ==> !Matches(h264, x.ToMatch(), codecs[m].ToMatch(), true)
  }

  /** No endpoint codec matches its first media codec behind an RTX codec. */
  ghost predicate LeadersDominate(h264: H264, codecs: seq<Codec>) {
    forall x: CodecCapability, r, f ::
      !(0 <= r < f && FirstMedia(h264, codecs, x, f) && codecs[r].IsRtx() && ValidApt(x.params))
  }

  /** RTX codecs that no endpoint can tell apart. */
  predicate Alike(a: Codec, b: Codec) {
    a.mime == b.mime && a.clockRate == b.clockRate && a.channels == b.channels
  }

  /** Before `f`, an RTX codec like that at `r` names a codec that `x` matches or one that is like it. */
  ghost predicate Paired(h264: H264, codecs: seq<Codec>, x: CodecCapability, r: int, f: int) {
    0 <= r < |codecs| && exists q, m ::
      && 0 <= q < f && q < |codecs| && codecs[q].IsRtx() && Alike(codecs[q], codecs[r])
      && 0 <= m < |codecs| && codecs[q].Apt() == Some(codecs[m].pt)
      && (Alike(codecs[m], codecs[r]) || Matches(h264, x.ToMatch(), codecs[m].ToMatch(), true))
  }

  /** If an endpoint codec matches its first media codec behind an RTX codec, one like that is paired before. */
  ghost predicate LeadersPaired(h264: H264, codecs: seq<Codec>) {
    forall x: CodecCapability, r, f ::
      0 <= r < f && FirstMedia(h264, codecs, x, f) && codecs[r].IsRtx() && ValidApt(x.params) ==>
        Paired(h264, codecs, x, r, f)
  }

  /** `canConsume` accepts every endpoint that a consumer can be made for exactly when no endpoint codec matches its
      first media codec behind an RTX codec; if only consumers with RTX count, then unless such an RTX codec is
      useful. */
  lemma CanConsumeCompleteExactly(h264: H264, codecs: seq<Codec>)
    ensures CanConsumeComplete(h264, codecs, false) <==> LeadersDominate(h264, codecs)
    ensures CanConsumeComplete(h264, codecs, true) <==> LeadersPaired(h264, codecs)
  {
    forall caps
      ensures ConsumerPossible(h264, codecs, caps, false) && LeadersDominate(h264, codecs) ==>
                CanConsumeSpec(h264, codecs, caps)
      ensures ConsumerPossible(h264, codecs, caps, true) && LeadersPaired(h264, codecs) ==>
                CanConsumeSpec(h264, codecs, caps)
    {
      LeadersSuffice(h264, codecs, caps);
    }
    forall x: CodecCapability, r, f | 0 <= r < f && FirstMedia(h264, codecs, x, f) && codecs[r].IsRtx()
                                      && ValidApt(x.params)
      ensures !CanConsumeComplete(h264, codecs, false)
      ensures CanConsumeComplete(h264, codecs, true) ==> Paired(h264, codecs, x, r, f)
    {
      PairRefused(h264, codecs, x, r, f);
    }
  }

  lemma LeadersSuffice(h264: H264, codecs: seq<Codec>, caps: seq<CodecCapability>)
    ensures ConsumerPossible(h264, codecs, caps, false) && LeadersDominate(h264, codecs) ==>
              CanConsumeSpec(h264, codecs, caps)
    ensures ConsumerPossible(h264, codecs, caps, true) && LeadersPaired(h264, codecs) ==>
              CanConsumeSpec(h264, codecs, caps)
  {
    RtxDecidesExactly(h264, codecs, caps);
    if ConsumerPossible(h264, codecs, caps, false) {
      RefusedExactly(h264, codecs, caps, false);
      if RtxLeads(h264, codecs, caps) {
        var r :| RtxSupportedAt(h264, codecs, caps, r) && NoMediaBefore(h264, codecs, caps, r);
        var f, x := SupportedLead(h264, codecs, caps);
        assert r < f && FirstMedia(h264, codecs, x, f);
        if Paired(h264, codecs, x, r, f) {
          PairedUseful(h264, codecs, caps, x, r, f);
        }
      }
    }
  }

  /** The first supported media codec, and the capability that it is supported by. */
  lemma SupportedLead(h264: H264, codecs: seq<Codec>, caps: seq<CodecCapability>) returns (f: nat, x: CodecCapability)
    requires ConsumerPossible(h264, codecs, caps, false)
    ensures MediaSupportedAt(h264, codecs, caps, f) && NoMediaBefore(h264, codecs, caps, f)
    ensures x in caps && ValidApt(x.params) && FirstMedia(h264, codecs, x, f)
  {
    PossibleWithoutRtx(h264, codecs, caps);
    var keep := Consumes(h264, codecs, caps, false);
    var i :| MediaSupportedAt(h264, codecs, caps, i);
    f := LeadBefore(codecs, keep, i);
    x := FirstCapability(h264, caps, codecs[f].ToMatch()).value;
    forall m | 0 <= m < f
      ensures !MediaSupportedAt(h264, codecs, caps, m)
      ensures !codecs[m].IsRtx() ==> !Matches(h264, x.ToMatch(), codecs[m].ToMatch(), true)
    {
      assert !keep(codecs[m]);
    }
  }

  lemma PairedUseful(h264: H264, codecs: seq<Codec>, caps: seq<CodecCapability>, x: CodecCapability, r: int, f: int)
    requires RtxSupportedAt(h264, codecs, caps, r) && x in caps && NoMediaBefore(h264, codecs, caps, f)
    requires Paired(h264, codecs, x, r, f)
    ensures UsefulRtxLeads(h264, codecs, caps)
  {
    var q, m :|
      && 0 <= q < f && q < |codecs| && codecs[q].IsRtx() && Alike(codecs[q], codecs[r])
      && 0 <= m < |codecs| && codecs[q].Apt() == Some(codecs[m].pt)
      && (Alike(codecs[m], codecs[r]) || Matches(h264, x.ToMatch(), codecs[m].ToMatch(), true));
    AlikeSupported(h264, caps, codecs[r], codecs[q]);
    if Alike(codecs[m], codecs[r]) {
      AlikeSupported(h264, caps, codecs[r], codecs[m]);
    }
    assert codecs[m] in codecs && Supported(h264, caps)(codecs[m]);
    assert UsefulRtxAt(h264, codecs, caps, q) && NoMediaBefore(h264, codecs, caps, q);
  }

  lemma AlikeSupported(h264: H264, caps: seq<CodecCapability>, a: Codec, b: Codec)
    requires a.IsRtx() && Alike(b, a) && Supported(h264, caps)(a)
    ensures Supported(h264, caps)(b)
  {
    var y := FirstCapability(h264, caps, a.ToMatch()).value;
    assert y in caps && Matches(h264, y.ToMatch(), b.ToMatch(), true);
  }

  /** The endpoint that supports just `x` and an RTX codec. */
  ghost function Endpoint(x: CodecCapability, rtx: Codec): seq<CodecCapability> {
    [x, CodecCapability(rtx.mime, None, rtx.clockRate, rtx.channels, map[], [])]
  }

  lemma EndpointSupports(h264: H264, x: CodecCapability, rtx: Codec, c: Codec)
    requires rtx.IsRtx()
    ensures Supported(h264, Endpoint(x, rtx))(c) <==> Matches(h264, x.ToMatch(), c.ToMatch(), true) || Alike(c, rtx)
  {
    var caps := Endpoint(x, rtx);
    assert caps[0] == x && caps[0] in caps && caps[1] in caps;
    assert Matches(h264, caps[1].ToMatch(), c.ToMatch(), true) <==> Alike(c, rtx);
  }

  /** The endpoint that supports just `x` and an RTX codec before its first media codec is refused, though a consumer
      can be made for it: without RTX always, with RTX unless such an RTX codec is useful. */
  lemma PairRefused(h264: H264, codecs: seq<Codec>, x: CodecCapability, r: int, f: int)
    requires 0 <= r < f && FirstMedia(h264, codecs, x, f) && codecs[r].IsRtx() && ValidApt(x.params)
    ensures var caps := Endpoint(x, codecs[r]);
            && ConsumerPossible(h264, codecs, caps, false) && !CanConsumeSpec(h264, codecs, caps)
            && (!Paired(h264, codecs, x, r, f) ==> ConsumerPossible(h264, codecs, caps, true))
  {
    var caps := Endpoint(x, codecs[r]);
    EndpointLeads(h264, codecs, x, r, f);
    PossibleWithoutRtx(h264, codecs, caps);
    RefusedExactly(h264, codecs, caps, false);
    RtxDecidesExactly(h264, codecs, caps);
    if UsefulRtxLeads(h264, codecs, caps) {
      var q :| UsefulRtxAt(h264, codecs, caps, q) && NoMediaBefore(h264, codecs, caps, q);
      UsefulPaired(h264, codecs, x, r, f, q);
    }
  }

  lemma EndpointLeads(h264: H264, codecs: seq<Codec>, x: CodecCapability, r: int, f: int)
    requires 0 <= r < f && FirstMedia(h264, codecs, x, f) && codecs[r].IsRtx()
    ensures var caps := Endpoint(x, codecs[r]);
            && MediaSupportedAt(h264, codecs, caps, f) && NoMediaBefore(h264, codecs, caps, f)
            && RtxSupportedAt(h264, codecs, caps, r) && NoMediaBefore(h264, codecs, caps, r)
  {
    forall m | 0 <= m <= f
      ensures Supported(h264, Endpoint(x, codecs[r]))(codecs[m]) <==>
              Matches(h264, x.ToMatch(), codecs[m].ToMatch(), true) || Alike(codecs[m], codecs[r])
    {
      EndpointSupports(h264, x, codecs[r], codecs[m]);
    }
  }

  lemma UsefulPaired(h264: H264, codecs: seq<Codec>, x: CodecCapability, r: int, f: int, q: int)
    requires 0 <= r < f && FirstMedia(h264, codecs, x, f) && codecs[r].IsRtx()
    requires UsefulRtxAt(h264, codecs, Endpoint(x, codecs[r]), q)
    requires NoMediaBefore(h264, codecs, Endpoint(x, codecs[r]), q)
    ensures Paired(h264, codecs, x, r, f)
  {
    var caps := Endpoint(x, codecs[r]);
    EndpointLeads(h264, codecs, x, r, f);
    var d :| d in codecs && Supported(h264, caps)(d) && codecs[q].Apt() == Some(d.pt);
    var m :| 0 <= m < |codecs| && codecs[m] == d;
    EndpointSupports(h264, x, codecs[r], codecs[m]);
    EndpointSupports(h264, x, codecs[r], codecs[q]);
    assert q < f && Alike(codecs[q], codecs[r]);
  }

  ghost predicate WithoutH264(codecs: seq<Codec>) {
    forall i :: 0 <= i < |codecs| ==> !codecs[i].mime.H264? && !codecs[i].mime.H264Svc?
  }

  /** A media codec before `r` matches the codec `c`. */
  ghost predicate MatchedBefore(h264: H264, codecs: seq<Codec>, c: CodecToMatch, r: int) {
    exists m :: 0 <= m < r && m < |codecs| && !codecs[m].IsRtx() && Matches(h264, c, codecs[m].ToMatch(), true)
  }

  /** For lists without H264 the condition is one on the list alone: every media codec behind an RTX codec matches a
      media codec before that. */
  lemma DominationChecked(h264: H264, codecs: seq<Codec>)
    requires WithoutH264(codecs)
    ensures LeadersDominate(h264, codecs) <==>
            forall r, i :: 0 <= r < i < |codecs| && codecs[r].IsRtx() && !codecs[i].IsRtx() ==>
              MatchedBefore(h264, codecs, codecs[i].ToMatch(), r)
  {
    if LeadersDominate(h264, codecs) {
      forall r, i | 0 <= r < i < |codecs| && codecs[r].IsRtx() && !codecs[i].IsRtx()
        ensures MatchedBefore(h264, codecs, codecs[i].ToMatch(), r)
      {
        OwnEndpoint(h264, codecs, r, i);
      }
    }
    if forall r, i :: 0 <= r < i < |codecs| && codecs[r].IsRtx() && !codecs[i].IsRtx() ==>
         MatchedBefore(h264, codecs, codecs[i].ToMatch(), r)
    {
      forall x: CodecCapability, r, f
        ensures !(0 <= r < f && FirstMedia(h264, codecs, x, f) && codecs[r].IsRtx() && ValidApt(x.params))
      {
        if 0 <= r < f && FirstMedia(h264, codecs, x, f) && codecs[r].IsRtx() {
          assert MatchedBefore(h264, codecs, codecs[f].ToMatch(), r);
        }
      }
    }
  }

  /** The endpoint codec that looks like the codec at `i`. */
  lemma OwnEndpoint(h264: H264, codecs: seq<Codec>, r: int, i: int)
    requires WithoutH264(codecs) && LeadersDominate(h264, codecs)
    requires 0 <= r < i < |codecs| && codecs[r].IsRtx() && !codecs[i].IsRtx()
    ensures MatchedBefore(h264, codecs, codecs[i].ToMatch(), r)
  {
    var c := codecs[i];
    var x := CodecCapability(c.mime, None, c.clockRate, c.channels, c.params - {"apt"}, []);
    var keep := (d: Codec) => !d.IsRtx() && Matches(h264, x.ToMatch(), d.ToMatch(), true);
    var f := LeadBefore(codecs, keep, i);
    forall m | 0 <= m < f && !codecs[m].IsRtx()
      ensures !Matches(h264, x.ToMatch(), codecs[m].ToMatch(), true)
    {
      assert !keep(codecs[m]);
    }
    assert FirstMedia(h264, codecs, x, f);
    assert Matches(h264, c.ToMatch(), codecs[f].ToMatch(), true);
  }

  /** For VP8 and VP9, each with its RTX codec, it is not complete: an endpoint that supports VP9 and RTX but not
      VP8 is refused although a consumer can be made for it, with RTX and without. */
  lemma CanConsumeIncomplete(h264: H264)
    ensures var rtx := (pt: u8, apt: u8) => Codec(VideoRtx, pt, 90000, None, map["apt" := Num(apt)], []);
            var media := (mime: MimeType, pt: u8) => Codec(mime, pt, 90000, None, map[], []);
            var codecs := [media(Vp8, 101), rtx(102, 101), media(Vp9, 103), rtx(104, 103)];
            !CanConsumeComplete(h264, codecs, false) && !CanConsumeComplete(h264, codecs, true)
  {
    var vp8, vp9 := Codec(Vp8, 101, 90000, None, map[], []), Codec(Vp9, 103, 90000, None, map[], []);
    var rtx8, rtx9 := Codec(VideoRtx, 102, 90000, None, map["apt" := Num(101)], []),
                      Codec(VideoRtx, 104, 90000, None, map["apt" := Num(103)], []);
    SecondRefused(h264, vp8, rtx8, vp9, rtx9, CodecCapability(Vp9, None, 90000, None, map[], []));
  }

  /** Two codecs, each with its RTX codec, and an endpoint codec that matches the second of them only. */
  lemma SecondRefused(h264: H264, a: Codec, rtxA: Codec, b: Codec, rtxB: Codec, x: CodecCapability)
    requires !a.IsRtx() && !b.IsRtx() && rtxA.IsRtx() && rtxB.IsRtx() && rtxA.Apt() == Some(a.pt)
    requires DistinctPts([a, rtxA, b, rtxB]) && ValidApt(x.params)
    requires !Matches(h264, x.ToMatch(), a.ToMatch(), true) && Matches(h264, x.ToMatch(), b.ToMatch(), true)
    ensures !CanConsumeComplete(h264, [a, rtxA, b, rtxB], false) && !CanConsumeComplete(h264, [a, rtxA, b, rtxB], true)
  {
    var codecs := [a, rtxA, b, rtxB];
    CanConsumeCompleteExactly(h264, codecs);
    assert codecs[1].IsRtx() && FirstMedia(h264, codecs, x, 2);
    forall q, m | 0 <= q < 2 && codecs[q].IsRtx() && 0 <= m < 4 && codecs[q].Apt() == Some(codecs[m].pt)
      ensures codecs[m] == a
    {
      assert q == 1 && codecs[0].pt == codecs[m].pt;
    }
    assert !Paired(h264, codecs, x, 1, 2);
  }

  /** When no media codec stands behind an RTX codec (audio, or a single video codec), `canConsume` is exact. */
  lemma MediaFirstExact(h264: H264, codecs: seq<Codec>, caps: seq<CodecCapability>, enableRtx: bool)
    requires forall r, i :: 0 <= r < i < |codecs| && codecs[r].IsRtx() ==> codecs[i].IsRtx()
    ensures CanConsumeSpec(h264, codecs, caps) <==> ConsumerPossible(h264, codecs, caps, enableRtx)
  {
    RtxDecidesExactly(h264, codecs, caps);
    LeadersSuffice(h264, codecs, caps);
    assert LeadersDominate(h264, codecs);
    if CanConsumeSpec(h264, codecs, caps) {
      AcceptedPossible(h264, codecs, caps, enableRtx);
    }
  }

  // ----- the consumer's parameters -----

  /** The capability at `i` is the first of the endpoint's that agrees with the codec. */
  ghost predicate FirstAgreeingCap(h264: H264, caps: seq<CodecCapability>, key: CodecToMatch, i: int) {
    && 0 <= i < |caps| && Agree(h264, LookCap(caps[i]), key, true)
    && forall k :: 0 <= k < i ==> !Agree(h264, LookCap(caps[k]), key, true)
  }

  lemma {:induction false} FirstCapabilityIsFirst(h264: H264, caps: seq<CodecCapability>, key: CodecToMatch)
    ensures var r := FirstCapability(h264, caps, key);
            && (r.None? <==> forall i :: 0 <= i < |caps| ==> !Agree(h264, LookCap(caps[i]), key, true))
            && (r.Some? ==> exists i :: FirstAgreeingCap(h264, caps, key, i) && caps[i] == r.value)
  {
    if caps != [] {
      MatchesExactly(h264, caps[0].ToMatch(), key, true);
      if Matches(h264, caps[0].ToMatch(), key, true) {
        assert FirstAgreeingCap(h264, caps, key, 0);
      } else {
        var others := caps[1..];
        FirstCapabilityIsFirst(h264, others, key);
        assert forall i :: 0 < i < |caps| ==> caps[i] == others[i - 1];
        if FirstCapability(h264, others, key).Some? {
          var i :| FirstAgreeingCap(h264, others, key, i) && others[i] == FirstCapability(h264, others, key).value;
          assert forall k :: 0 < k < i + 1 ==> caps[k] == others[k - 1];
          assert FirstAgreeingCap(h264, caps, key, i + 1);
        }
      }
    }
  }

  /** A codec is supported exactly when some capability of the endpoint agrees with it. */
  lemma SupportedExactly(h264: H264, caps: seq<CodecCapability>, c: Codec)
    ensures Supported(h264, caps)(c) <==> exists i :: 0 <= i < |caps| && Agree(h264, LookCap(caps[i]), Look(c), true)
  {
    FirstCapabilityIsFirst(h264, caps, Look(c));
  }

  ghost predicate Negotiated(extensions: seq<ExtensionParameters>, uri: ExtensionUri) {
    exists e :: e in extensions && e.uri == uri
  }

  /** `c` is `d` with the feedback of the first capability that agrees with it, less NACK without RTX and less the
      bandwidth-estimation feedback that the negotiated extensions do not go with. */
  ghost predicate ConsumedAs(h264: H264, caps: seq<CodecCapability>, enableRtx: bool,
                             extensions: seq<ExtensionParameters>, d: Codec, c: Codec)
  {
    && c == d.(feedback := c.feedback)
    && exists i :: && FirstAgreeingCap(h264, caps, Look(d), i)
                   && ReducedFrom(caps[i].feedback, enableRtx, extensions, c.feedback)
  }

  ghost predicate ReducedFrom(given: seq<Feedback>, enableRtx: bool, extensions: seq<ExtensionParameters>,
                              out: seq<Feedback>)
  {
    forall fb :: fb in out <==>
      && fb in given
      && (fb == Nack ==> enableRtx)
      && (fb == TransportCc ==> Negotiated(extensions, TransportWideCcDraft01))
      && (fb == GoogRemb ==> Negotiated(extensions, AbsSendTime) && !Negotiated(extensions, TransportWideCcDraft01))
  }

  /** The errors: a capability whose `apt` is a text, no media codec to start with, or too many encodings to reduce. */
  lemma ConsumerErrorExactly(h264: H264, consumable: RtpParameters, remote: RemoteCaps, pipe: bool, enableRtx: bool,
                             ssrc: nat, rtxSsrc: nat, e: ConsumerError)
    ensures ConsumerParameters(h264, consumable, remote, pipe, enableRtx, ssrc, rtxSsrc) == Err(e) <==>
            var bad := exists c :: c in remote.codecs && "apt" in c.params && c.params["apt"].Str?;
            var leads := MediaLeads(consumable.codecs, Consumes(h264, consumable.codecs, remote.codecs, enableRtx));
            match e
            case InvalidCapabilities => bad
            case NoCompatibleMediaCodecs => !bad && !leads
            case TooManyLayers => !bad && leads && !pipe && |consumable.encodings| > 99
  {
    PossibleExactly(h264, consumable.codecs, remote.codecs, enableRtx);
    ReducibleExactly(consumable.encodings);
    ValidExactly(remote.codecs);
    KeptInOrder(h264, consumable.codecs, remote.codecs, enableRtx);
    MediaLeadsExactly(consumable.codecs, Consumes(h264, consumable.codecs, remote.codecs, enableRtx));
  }

  lemma ValidExactly(caps: seq<CodecCapability>)
    ensures !ValidCapabilities(caps) <==> exists c :: c in caps && "apt" in c.params && c.params["apt"].Str?
  {
    if !ValidCapabilities(caps) {
      var i :| 0 <= i < |caps| && !ValidApt(caps[i].params);
      assert caps[i] in caps;
    }
  }

  /** `out` are the codecs that are to be consumed, in their order, each with exactly the feedback it is to have. */
  ghost predicate ConsumedExactly(h264: H264, codecs: seq<Codec>, caps: seq<CodecCapability>, enableRtx: bool,
                                  extensions: seq<ExtensionParameters>, out: seq<Codec>)
  {
    var wanted := Filter(codecs, Consumes(h264, codecs, caps, enableRtx));
    && |out| == |wanted|
    && forall i :: 0 <= i < |wanted| ==> ConsumedAs(h264, caps, enableRtx, extensions, wanted[i], out[i])
  }

  /** What every consumer gets: a leading media codec; exactly the codecs it is to get, each with exactly the feedback
      it is to have; exactly the extensions of both sides; and the encodings it is to have, with RTX SSRCs exactly when
      it has an RTX codec. */
  lemma ConsumerSound(h264: H264, consumable: RtpParameters, remote: RemoteCaps, pipe: bool, enableRtx: bool,
                      ssrc: nat, rtxSsrc: nat)
    requires ConsumerParameters(h264, consumable, remote, pipe, enableRtx, ssrc, rtxSsrc).Ok?
    ensures var p := ConsumerParameters(h264, consumable, remote, pipe, enableRtx, ssrc, rtxSsrc).value;
            && StartsWithMedia(p.codecs)
            && ConsumedExactly(h264, consumable.codecs, remote.codecs, enableRtx, p.headerExtensions, p.codecs)
            && CommonExtensions(consumable.headerExtensions, remote.headerExtensions, p.headerExtensions)
            && EncodingsFor(consumable.encodings, pipe, HasRtx(p.codecs), ssrc, rtxSsrc, p.encodings)
            && p.mid == None && p.rtcp == consumable.rtcp
  {
    var extensions := Filter(consumable.headerExtensions, SupportedExtension(remote.headerExtensions));
    KeptExactly(h264, consumable.codecs, remote.codecs, enableRtx, extensions);
    FilteredExtensions(consumable.headerExtensions, remote.headerExtensions);
    ConsumerRtx(h264, consumable, remote, pipe, enableRtx, ssrc, rtxSsrc);
  }

  lemma ConsumerRtx(h264: H264, consumable: RtpParameters, remote: RemoteCaps, pipe: bool, enableRtx: bool,
                    ssrc: nat, rtxSsrc: nat)
    requires ConsumerParameters(h264, consumable, remote, pipe, enableRtx, ssrc, rtxSsrc).Ok?
    ensures var p := ConsumerParameters(h264, consumable, remote, pipe, enableRtx, ssrc, rtxSsrc).value;
            EncodingsFor(consumable.encodings, pipe, HasRtx(p.codecs), ssrc, rtxSsrc, p.encodings)
  {
    var kept := Sanitize(MatchedCodecs(h264, consumable.codecs, remote.codecs, enableRtx));
    ReducedHasRtx(kept, Filter(consumable.headerExtensions, SupportedExtension(remote.headerExtensions)));
    EncodingsMade(consumable.encodings, pipe, HasRtx(kept), ssrc, rtxSsrc);
  }

  /** The endpoint has the extension under the same id. */
  ghost predicate Shared(caps: seq<HeaderExtension>, e: ExtensionParameters) {
    exists x :: x in caps && x.preferredId == e.id && x.uri == e.uri
  }

  /** `out` are the extensions that the endpoint shares, in their order. */
  ghost predicate CommonExtensions(extensions: seq<ExtensionParameters>, caps: seq<HeaderExtension>,
                                   out: seq<ExtensionParameters>)
  {
    && (exists keep: ExtensionParameters -> bool :: out == Filter(extensions, keep))
    && forall e :: e in out <==> e in extensions && Shared(caps, e)
  }

  lemma FilteredExtensions(extensions: seq<ExtensionParameters>, caps: seq<HeaderExtension>)
    ensures CommonExtensions(extensions, caps, Filter(extensions, SupportedExtension(caps)))
  {
    forall e
      ensures e in Filter(extensions, SupportedExtension(caps)) <==> e in extensions && Shared(caps, e)
    {
      FilterMember(extensions, SupportedExtension(caps), e);
      if SupportedExtension(caps)(e) {
        var i :| 0 <= i < |caps| && caps[i].preferredId == e.id && caps[i].uri == e.uri;
        assert caps[i] in caps;
      }
    }
  }

  /** A piped consumer has all encodings under new SSRCs; any other has one, with reduced settings. */
  ghost predicate EncodingsFor(encodings: seq<Encoding>, pipe: bool, rtx: bool, ssrc: nat, rtxSsrc: nat,
                               out: seq<Encoding>)
  {
    && |out| == (if pipe then |encodings| else 1)
    && forall i :: 0 <= i < |out| ==>
         && out[i].ssrc == Some(ssrc + i)
         && out[i].rtxSsrc == (if !rtx then None else if pipe then Some(rtxSsrc + i) else Some(ssrc + 1))
         && out[i].rid == (if pipe then encodings[i].rid else None)
         && out[i].codecPt == (if pipe then encodings[i].codecPt else None)
         && (pipe ==> out[i].settings == encodings[i].settings)
         && (!pipe ==> Reduced(encodings, out[i].settings))
  }

  /** The highest bitrate of any encoding, absent when none has one. */
  ghost predicate HighestBitrate(encodings: seq<Encoding>, max: Option<u32>) {
    && (max.None? <==> forall e :: e in encodings ==> e.settings.maxBitrate.None?)
    && (max.Some? ==> exists e :: e in encodings && e.settings.maxBitrate == max)
    && (forall e :: e in encodings && e.settings.maxBitrate.Some? ==>
          max.Some? && e.settings.maxBitrate.value <= max.value)
  }

  /** A single encoding keeps its mode; several become spatial layers, with the temporal layers of the first. */
  ghost predicate Reduced(encodings: seq<Encoding>, out: EncodingSettings) {
    && out.dtx == None && out.scaleResolutionDownBy == None
    && HighestBitrate(encodings, out.maxBitrate)
    && (encodings == [] ==> out.scalabilityMode == "")
    && (|encodings| == 1 ==> out.scalabilityMode == encodings[0].settings.scalabilityMode)
    && (1 < |encodings| <= 99 ==>
          IsMode(out.scalabilityMode, 'L', |encodings|, TemporalLayers(encodings[0].settings.scalabilityMode), ""))
  }

  lemma EncodingsMade(encodings: seq<Encoding>, pipe: bool, rtx: bool, ssrc: nat, rtxSsrc: nat)
    ensures EncodingsFor(encodings, pipe, rtx, ssrc, rtxSsrc,
                         ConsumerEncodings(encodings, pipe, rtx, ssrc, rtxSsrc))
  {
    SettingsReduced(encodings);
  }

  lemma SettingsReduced(encodings: seq<Encoding>)
    ensures Reduced(encodings, ReduceSettings(encodings))
  {
    MaxBitrateExact(encodings);
    if 1 < |encodings| <= 99 {
      PrintsMode(|encodings|, TemporalLayers(encodings[0].settings.scalabilityMode));
    }
  }

  lemma KeptExactly(h264: H264, codecs: seq<Codec>, caps: seq<CodecCapability>, enableRtx: bool,
                    extensions: seq<ExtensionParameters>)
    ensures ConsumedExactly(h264, codecs, caps, enableRtx, extensions,
                            ReduceFeedback(Sanitize(MatchedCodecs(h264, codecs, caps, enableRtx)), extensions))
  {
    KeptInOrder(h264, codecs, caps, enableRtx);
    var wanted := Filter(codecs, Consumes(h264, codecs, caps, enableRtx));
    var kept := Sanitize(MatchedCodecs(h264, codecs, caps, enableRtx));
    forall i | 0 <= i < |wanted|
      ensures ConsumedAs(h264, caps, enableRtx, extensions, wanted[i], ReduceFeedback(kept, extensions)[i])
    {
      ReducedAs(h264, caps, enableRtx, extensions, wanted[i], kept[i]);
    }
  }

  lemma ReducedAs(h264: H264, caps: seq<CodecCapability>, enableRtx: bool, extensions: seq<ExtensionParameters>,
                  d: Codec, k: Codec)
    requires MatchedAs(h264, caps, enableRtx, d, k)
    ensures ConsumedAs(h264, caps, enableRtx, extensions, d, k.(feedback := Filter(k.feedback, KeepBwe(extensions))))
  {
    FirstCapabilityIsFirst(h264, caps, Look(d));
    var cap := FirstCapability(h264, caps, d.ToMatch()).value;
    var i :| FirstAgreeingCap(h264, caps, Look(d), i) && caps[i] == cap;
    FeedbackReduced(cap.feedback, enableRtx, extensions);
    assert ReducedFrom(caps[i].feedback, enableRtx, extensions, Filter(k.feedback, KeepBwe(extensions)));
  }

  lemma FeedbackReduced(given: seq<Feedback>, enableRtx: bool, extensions: seq<ExtensionParameters>)
    ensures ReducedFrom(given, enableRtx, extensions, Filter(Filter(given, KeepNack(enableRtx)), KeepBwe(extensions)))
  {
    var nacked := Filter(given, KeepNack(enableRtx));
    UriNegotiated(extensions, TransportWideCcDraft01);
    UriNegotiated(extensions, AbsSendTime);
    forall fb
      ensures fb in Filter(nacked, KeepBwe(extensions)) <==>
              fb in given && KeepNack(enableRtx)(fb) && KeepBwe(extensions)(fb)
    {
      FilterMember(given, KeepNack(enableRtx), fb);
      FilterMember(nacked, KeepBwe(extensions), fb);
    }
  }

  lemma UriNegotiated(extensions: seq<ExtensionParameters>, uri: ExtensionUri)
    ensures HasUri(extensions, uri) <==> Negotiated(extensions, uri)
  {
    if HasUri(extensions, uri) {
      var i :| 0 <= i < |extensions| && extensions[i].uri == uri;
      assert extensions[i] in extensions;
    }
  }

  /** On the codecs that a router derives from a producer's, both versions of the RTX removal agree, and every RTX codec
      of a consumer has its media codec there. */
  lemma ConsumerRtxPaired(h264: H264, keys: seq<CodecToMatch>, router: seq<Codec>, caps: seq<CodecCapability>,
                          enableRtx: bool)
    requires NegotiableCaps(router) && MatchedKeys(h264, keys, router)
    ensures var matched := MatchedCodecs(h264, Blocks(h264, keys, router), caps, enableRtx);
            && Spliced(matched, 0) == Sanitize(matched)
            && forall c :: c in Sanitize(matched) && c.IsRtx() ==>
                 exists d :: d in Sanitize(matched) && !d.IsRtx() && c.Apt() == Some(d.pt)
  {
    var codecs := Blocks(h264, keys, router);
    var matched := MatchedCodecs(h264, codecs, caps, enableRtx);
    forall c, d | c in matched && d in matched && c.IsRtx() && c.Apt() == Some(d.pt)
      ensures !d.IsRtx()
    {
      MatchedMember(h264, codecs, caps, enableRtx, c);
      MatchedMember(h264, codecs, caps, enableRtx, d);
      var x :| x in codecs && MatchedAs(h264, caps, enableRtx, x, c);
      var y :| y in codecs && MatchedAs(h264, caps, enableRtx, y, d);
      BlocksMember(h264, keys, router, x);
      var k :| k in keys && FromKey(h264, router, x, k);
      BlockMedia(h264, keys, router, y, FirstMatch(h264, k, router).value);
    }
    NoRtxNamedAgree(matched);
  }

  lemma ReducedHasRtx(kept: seq<Codec>, extensions: seq<ExtensionParameters>)
    ensures HasRtx(ReduceFeedback(kept, extensions)) <==> HasRtx(kept)
  {
    var codecs := ReduceFeedback(kept, extensions);
    forall i | 0 <= i < |kept|
      ensures kept[i].IsRtx() ==> HasRtx(codecs)
      ensures codecs[i].IsRtx() ==> HasRtx(kept)
    {
      assert codecs[i] in codecs && kept[i] in kept;
    }
  }
}
