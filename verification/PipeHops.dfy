/** Piping a producer from router to router: the pipe consumer's parameters, and what is preserved when
    they are produced again on the next router. */
module PipeHops {
  import opened Common
  import opened Rtp
  import opened RouterCapabilities
  import opened ProducerMapping
  import opened Consumable

  function PipeFeedback(enableRtx: bool): Feedback -> bool {
    (fb: Feedback) => fb.NackPli? || fb.CcmFir? || (enableRtx && fb.Nack?)
  }

  function PipeExtension(): ExtensionParameters -> bool {
    (ext: ExtensionParameters) => !(ext.uri.Mid? || ext.uri.AbsSendTime? || ext.uri.TransportWideCcDraft01?)
  }

  function PipeCodec(c: Codec, enableRtx: bool): Codec {
    c.(feedback := Filter(c.feedback, PipeFeedback(enableRtx)))
  }

  function PipeCodecs(codecs: seq<Codec>, enableRtx: bool): seq<Codec> {
    if codecs == [] then []
    else if !enableRtx && Last(codecs).IsRtx() then PipeCodecs(Init(codecs), enableRtx)
    else PipeCodecs(Init(codecs), enableRtx) + [PipeCodec(Last(codecs), enableRtx)]
  }

  function PipeEncodings(encodings: seq<Encoding>, enableRtx: bool, ssrc: nat, rtxSsrc: nat): (r: seq<Encoding>)
    ensures |r| == |encodings|
    ensures forall i :: 0 <= i < |r| ==>
              r[i] == encodings[i].(ssrc := Some(ssrc + i), rtxSsrc := if enableRtx then Some(rtxSsrc + i) else None)
  {
    seq(|encodings|, i requires 0 <= i < |encodings| =>
      encodings[i].(ssrc := Some(ssrc + i), rtxSsrc := if enableRtx then Some(rtxSsrc + i) else None))
  }

  function PipeConsumerParameters(consumable: RtpParameters, enableRtx: bool, ssrc: nat, rtxSsrc: nat): RtpParameters {
    RtpParameters(None, PipeCodecs(consumable.codecs, enableRtx), Filter(consumable.headerExtensions, PipeExtension()),
                  PipeEncodings(consumable.encodings, enableRtx, ssrc, rtxSsrc), consumable.rtcp)
  }

  method GetPipeConsumerRtpParameters(consumable: RtpParameters, enableRtx: bool, ssrc: nat, rtxSsrc: nat)
    returns (r: RtpParameters)
    ensures r == PipeConsumerParameters(consumable, enableRtx, ssrc, rtxSsrc)
  {
    var codecs := [];
    for i := 0 to |consumable.codecs|
      invariant codecs == PipeCodecs(consumable.codecs[..i], enableRtx)
    {
      PrefixStep(consumable.codecs, i);
      var codec := consumable.codecs[i];
      if enableRtx || !codec.IsRtx() {
        codecs := codecs + [codec.(feedback := Filter(codec.feedback, PipeFeedback(enableRtx)))];
      }
    }
    assert consumable.codecs[..|consumable.codecs|] == consumable.codecs;
    var encodings := [];
    for i := 0 to |consumable.encodings|
      invariant |encodings| == i
      invariant encodings == PipeEncodings(consumable.encodings, enableRtx, ssrc, rtxSsrc)[..i]
    {
      var rtx := if enableRtx then Some(rtxSsrc + i) else None;
      encodings := encodings + [consumable.encodings[i].(ssrc := Some(ssrc + i), rtxSsrc := rtx)];
    }
    r := RtpParameters(None, codecs, Filter(consumable.headerExtensions, PipeExtension()), encodings, consumable.rtcp);
  }

  /** `c` is `d` without the feedback that bandwidth estimation needs, and without NACK unless RTX is enabled. */
  ghost predicate PipedAs(d: Codec, c: Codec, enableRtx: bool) {
    && c == d.(feedback := c.feedback)
    && forall fb :: fb in c.feedback <==> fb in d.feedback && (fb in {NackPli, CcmFir} || (fb == Nack && enableRtx))
  }

  function WithoutRtx(enableRtx: bool): Codec -> bool {
    (c: Codec) => enableRtx || !c.IsRtx()
  }

  /** A pipe consumer keeps all encodings, drops what bandwidth estimation and MID need, and without RTX also
      drops RTX codecs and NACK; nothing else is dropped and the order is kept. */
  lemma PipeConsumerSound(consumable: RtpParameters, enableRtx: bool, ssrc: nat, rtxSsrc: nat)
    ensures var p := PipeConsumerParameters(consumable, enableRtx, ssrc, rtxSsrc);
            var codecs := Filter(consumable.codecs, WithoutRtx(enableRtx));
            && |p.encodings| == |consumable.encodings|
            && (forall i :: 0 <= i < |p.encodings| ==>
                  && p.encodings[i].ssrc == Some(ssrc + i)
                  && p.encodings[i].rtxSsrc == (if enableRtx then Some(rtxSsrc + i) else None)
                  && p.encodings[i].rid == consumable.encodings[i].rid
                  && p.encodings[i].codecPt == consumable.encodings[i].codecPt
                  && p.encodings[i].settings == consumable.encodings[i].settings)
            && (forall e :: e in p.headerExtensions <==>
                  e in consumable.headerExtensions && e.uri !in {Mid, AbsSendTime, TransportWideCcDraft01})
            && p.mid == None && p.rtcp == consumable.rtcp
            && |p.codecs| == |codecs|
            && forall i :: 0 <= i < |codecs| ==> PipedAs(codecs[i], p.codecs[i], enableRtx)
  {
    var p := PipeConsumerParameters(consumable, enableRtx, ssrc, rtxSsrc);
    forall e
      ensures e in p.headerExtensions <==>
              e in consumable.headerExtensions && e.uri !in {Mid, AbsSendTime, TransportWideCcDraft01}
    {
      FilterMember(consumable.headerExtensions, PipeExtension(), e);
    }
    PipedInOrder(consumable.codecs, enableRtx);
  }

  lemma {:induction false} PipedInOrder(codecs: seq<Codec>, enableRtx: bool)
    ensures var kept, piped := Filter(codecs, WithoutRtx(enableRtx)), PipeCodecs(codecs, enableRtx);
            |piped| == |kept| && forall i :: 0 <= i < |kept| ==> PipedAs(kept[i], piped[i], enableRtx)
  {
    if codecs != [] {
      PipedInOrder(Init(codecs), enableRtx);
      PipedCodec(Last(codecs), enableRtx);
    }
  }

  lemma PipedCodec(d: Codec, enableRtx: bool)
    ensures PipedAs(d, PipeCodec(d, enableRtx), enableRtx)
  {
    forall fb
      ensures fb in PipeCodec(d, enableRtx).feedback <==> fb in d.feedback && PipeFeedback(enableRtx)(fb)
    {
      FilterMember(d.feedback, PipeFeedback(enableRtx), fb);
    }
  }

  // ----- one hop -----

  /** Media codecs that all have a match in the router. */
  ghost predicate MatchedKeys(h264: H264, keys: seq<CodecToMatch>, caps: seq<Codec>) {
    forall k :: k in keys ==> !k.mime.IsRtx() && FirstMatch(h264, k, caps).Some?
  }

  lemma {:induction false} KeysConcat(a: seq<Codec>, b: seq<Codec>)
    ensures Keys(a + b) == Keys(a) + Keys(b)
  {
    if b == [] {
      assert a + b == a;
    } else {
      assert Init(a + b) == a + Init(b) && Last(a + b) == Last(b);
      KeysConcat(a, Init(b));
    }
  }

  lemma {:induction false} KeysOfBlocks(h264: H264, keys: seq<CodecToMatch>, caps: seq<Codec>)
    requires MatchedKeys(h264, keys, caps)
    ensures Keys(Blocks(h264, keys, caps)) == keys
  {
    if keys != [] {
      var front, key := Init(keys), Last(keys);
      assert keys == front + [key];
      MatchedSplit(h264, front, key, caps);
      KeysOfBlocks(h264, front, caps);
      KeysOfBlock(h264, key, caps);
      KeysJoined(Blocks(h264, front, caps), BlockFor(h264, key, caps), front, [key]);
    }
  }

  lemma KeysJoined(a: seq<Codec>, b: seq<Codec>, ka: seq<CodecToMatch>, kb: seq<CodecToMatch>)
    requires Keys(a) == ka && Keys(b) == kb
    ensures Keys(a + b) == ka + kb
  {
    KeysConcat(a, b);
  }

  lemma MatchedSplit(h264: H264, front: seq<CodecToMatch>, key: CodecToMatch, caps: seq<Codec>)
    requires MatchedKeys(h264, front + [key], caps)
    ensures MatchedKeys(h264, front, caps) && MatchedKeys(h264, [key], caps)
    ensures !key.mime.IsRtx() && FirstMatch(h264, key, caps).Some?
  {
    assert key in front + [key] && forall k :: k in front ==> k in front + [key];
  }

  lemma KeysOfBlock(h264: H264, key: CodecToMatch, caps: seq<Codec>)
    requires !key.mime.IsRtx() && FirstMatch(h264, key, caps).Some?
    ensures Keys(BlockFor(h264, key, caps)) == [key]
  {
    var media := FirstMatch(h264, key, caps).value.(params := key.params);
    assert media.ToMatch() == key;
    assert Keys([media]) == [key];
    var rtx := FirstRtxFor(caps, media.pt);
    if rtx.Some? {
      assert BlockFor(h264, key, caps) == [media] + [rtx.value];
      KeysConcat([media], [rtx.value]);
    } else {
      assert BlockFor(h264, key, caps) == [media];
    }
  }

  lemma {:induction false} KeysOfPipe(codecs: seq<Codec>, enableRtx: bool)
    ensures Keys(PipeCodecs(codecs, enableRtx)) == Keys(codecs)
  {
    if codecs != [] {
      KeysOfPipe(Init(codecs), enableRtx);
      if enableRtx || !Last(codecs).IsRtx() {
        assert Init(PipeCodecs(codecs, enableRtx)) == PipeCodecs(Init(codecs), enableRtx);
      }
    }
  }

  lemma {:induction false} PipeMember(codecs: seq<Codec>, enableRtx: bool, c: Codec)
    ensures c in PipeCodecs(codecs, enableRtx) <==>
            exists d :: d in codecs && (enableRtx || !d.IsRtx()) && c == PipeCodec(d, enableRtx)
  {
    if codecs != [] {
      PipeMember(Init(codecs), enableRtx, c);
      assert codecs == Init(codecs) + [Last(codecs)];
    }
  }

  /** Where a codec of a sequence of blocks comes from. */
  ghost predicate FromKey(h264: H264, caps: seq<Codec>, c: Codec, k: CodecToMatch) {
    && FirstMatch(h264, k, caps).Some?
    && var cap := FirstMatch(h264, k, caps).value;
       c == cap.(params := k.params) || Some(c) == FirstRtxFor(caps, cap.pt)
  }

  lemma {:induction false} BlocksMember(h264: H264, keys: seq<CodecToMatch>, caps: seq<Codec>, c: Codec)
    ensures c in Blocks(h264, keys, caps) <==> exists k :: k in keys && FromKey(h264, caps, c, k)
  {
    if keys != [] {
      BlocksMember(h264, Init(keys), caps, c);
      BlockMember(h264, Last(keys), caps, c);
      assert keys == Init(keys) + [Last(keys)];
      assert forall k :: k in keys <==> k in Init(keys) || k == Last(keys);
    }
  }

  lemma BlockMember(h264: H264, key: CodecToMatch, caps: seq<Codec>, c: Codec)
    ensures c in BlockFor(h264, key, caps) <==> FromKey(h264, caps, c, key)
  {
  }

  /** Every codec of a piped sequence of blocks maps to its own payload type. */
  lemma PipedMapsToItself(h264: H264, keys: seq<CodecToMatch>, caps: seq<Codec>, enableRtx: bool, c: Codec)
    requires NegotiableCaps(caps) && MatchedKeys(h264, keys, caps)
    requires c in PipeCodecs(Blocks(h264, keys, caps), enableRtx)
    ensures MapsTo(h264, PipeCodecs(Blocks(h264, keys, caps), enableRtx), caps, c, c.pt)
  {
    var blocks := Blocks(h264, keys, caps);
    var d, k := PipedFrom(h264, keys, caps, enableRtx, c);
    var cap := FirstMatch(h264, k, caps).value;
    if c.IsRtx() {
      var media := cap.(params := k.params);
      BlocksMember(h264, keys, caps, media);
      PipeMember(blocks, enableRtx, PipeCodec(media, enableRtx));
      var x := FirstByPt(PipeCodecs(blocks, enableRtx), cap.pt).value;
      PipedMedia(h264, keys, caps, enableRtx, x, cap);
      assert RtxOf(h264, PipeCodecs(blocks, enableRtx), caps, c, x);
    } else {
      assert c.ToMatch() == k;
    }
  }

  lemma PipedFrom(h264: H264, keys: seq<CodecToMatch>, caps: seq<Codec>, enableRtx: bool, c: Codec)
    returns (d: Codec, k: CodecToMatch)
    requires MatchedKeys(h264, keys, caps)
    requires c in PipeCodecs(Blocks(h264, keys, caps), enableRtx)
    ensures d in Blocks(h264, keys, caps) && c == PipeCodec(d, enableRtx)
    ensures k in keys && FromKey(h264, caps, d, k) && !k.mime.IsRtx()
    ensures !c.IsRtx() ==> d == FirstMatch(h264, k, caps).value.(params := k.params)
    ensures c.IsRtx() ==> Some(d) == FirstRtxFor(caps, FirstMatch(h264, k, caps).value.pt)
  {
    var blocks := Blocks(h264, keys, caps);
    PipeMember(blocks, enableRtx, c);
    d :| d in blocks && c == PipeCodec(d, enableRtx);
    BlocksMember(h264, keys, caps, d);
    k :| k in keys && FromKey(h264, caps, d, k);
  }

  /** A piped codec that has the payload type of a router's media codec is a media codec matched to it. */
  lemma PipedMedia(h264: H264, keys: seq<CodecToMatch>, caps: seq<Codec>, enableRtx: bool, x: Codec, cap: Codec)
    requires NegotiableCaps(caps) && MatchedKeys(h264, keys, caps)
    requires x in PipeCodecs(Blocks(h264, keys, caps), enableRtx)
    requires cap in caps && !cap.IsRtx() && x.pt == cap.pt
    ensures !x.IsRtx() && Matched(h264, caps, x) && MatchedPt(h264, caps, x) == cap.pt
  {
    var d, k := PipedFrom(h264, keys, caps, enableRtx, x);
    DistinctPtsUnique(caps, cap);
    if x.IsRtx() {
      DistinctPtsUnique(caps, d);
    } else {
      assert x.ToMatch() == k;
    }
  }

  /** Mapping the piped codecs on a router with the same capabilities succeeds and is the identity. */
  lemma PipedMappingIsIdentity(h264: H264, keys: seq<CodecToMatch>, caps: seq<Codec>, enableRtx: bool)
    requires NegotiableCaps(caps) && MatchedKeys(h264, keys, caps)
    ensures var piped := PipeCodecs(Blocks(h264, keys, caps), enableRtx);
            MapCodecs(h264, piped, caps).Ok? && forall c :: c in piped ==>
              c in MapCodecs(h264, piped, caps).value && MapCodecs(h264, piped, caps).value[c] == c.pt
  {
    var piped := PipeCodecs(Blocks(h264, keys, caps), enableRtx);
    MapCodecsExact(h264, piped, caps);
    forall c | c in piped
      ensures Mappable(h264, piped, caps, c)
    {
      PipedMapsToItself(h264, keys, caps, enableRtx, c);
    }
    var m := MapCodecs(h264, piped, caps).value;
    forall c | c in piped
      ensures m[c] == c.pt
    {
      PipedMapsToItself(h264, keys, caps, enableRtx, c);
      MapsToUnique(h264, piped, caps, c, m[c], c.pt);
    }
  }

  /** Producing the piped codecs again gives back the very same consumable codecs. */
  lemma PipedCodecsRestored(h264: H264, keys: seq<CodecToMatch>, caps: seq<Codec>, enableRtx: bool,
                            entries: seq<CodecEntry>)
    requires NegotiableCaps(caps) && MatchedKeys(h264, keys, caps)
    requires var piped := PipeCodecs(Blocks(h264, keys, caps), enableRtx);
             MapCodecs(h264, piped, caps).Ok? && Lists(entries, MapCodecs(h264, piped, caps).value)
    ensures var piped := PipeCodecs(Blocks(h264, keys, caps), enableRtx);
            ConsumableCodecs(piped, caps, entries) == Some(Blocks(h264, keys, caps))
  {
    var piped := PipeCodecs(Blocks(h264, keys, caps), enableRtx);
    PipedMappingIsIdentity(h264, keys, caps, enableRtx);
    MapCodecsExact(h264, piped, caps);
    ConsumableIsBlocks(h264, piped, caps, entries);
    KeysOfPipe(Blocks(h264, keys, caps), enableRtx);
    KeysOfBlocks(h264, keys, caps);
  }

  /** The random choices of one hop and the mapping that the next router makes. */
  datatype Hop = Hop(enableRtx: bool, ssrc: nat, rtxSsrc: nat, mappedSsrc: nat, mapping: RtpMapping)

  /** `after` is what the next router derives from `before`. */
  ghost predicate HopsTo(h264: H264, kind: MediaKind, caps: RouterCaps, hop: Hop, before: RtpParameters,
                         after: RtpParameters)
  {
    var piped := PipeConsumerParameters(before, hop.enableRtx, hop.ssrc, hop.rtxSsrc);
    && HopMapping(h264, caps, hop, piped)
    && ConsumableParameters(kind, piped, caps, hop.mapping) == Some(after)
  }

  /** The hop's mapping is one that the next router may make of the piped parameters. */
  ghost predicate HopMapping(h264: H264, caps: RouterCaps, hop: Hop, piped: RtpParameters) {
    && MapCodecs(h264, piped.codecs, caps.codecs).Ok?
    && Lists(hop.mapping.codecs, MapCodecs(h264, piped.codecs, caps.codecs).value)
    && hop.mapping.encodings == MapEncodings(piped.encodings, hop.mappedSsrc)
  }

  /** Equal in everything but the SSRCs. */
  ghost predicate SameButSsrc(p: RtpParameters, q: RtpParameters) {
    && p.mid == q.mid && p.codecs == q.codecs && p.headerExtensions == q.headerExtensions && p.rtcp == q.rtcp
    && |p.encodings| == |q.encodings|
    && forall i :: 0 <= i < |p.encodings| ==> p.encodings[i].(ssrc := None) == q.encodings[i].(ssrc := None)
  }

  /** The form of all consumable parameters. */
  ghost predicate IsConsumable(h264: H264, kind: MediaKind, caps: RouterCaps, keys: seq<CodecToMatch>,
                               p: RtpParameters)
  {
    && MatchedKeys(h264, keys, caps.codecs)
    && p.mid == None
    && p.codecs == Blocks(h264, keys, caps.codecs)
    && p.headerExtensions == ConsumableExtensions(kind, caps.headerExtensions)
    && p.rtcp == Rtcp(p.rtcp.cname, true, Some(true))
    && forall i :: 0 <= i < |p.encodings| ==>
         p.encodings[i].rid.None? && p.encodings[i].codecPt.None? && p.encodings[i].rtxSsrc.None?
  }

  lemma ConsumableForm(h264: H264, kind: MediaKind, params: RtpParameters, caps: RouterCaps, mapping: RtpMapping)
    requires NegotiableCaps(caps.codecs) && DistinctPts(params.codecs)
    requires MapCodecs(h264, params.codecs, caps.codecs).Ok?
    requires Lists(mapping.codecs, MapCodecs(h264, params.codecs, caps.codecs).value)
    ensures ConsumableParameters(kind, params, caps, mapping).Some?
    ensures IsConsumable(h264, kind, caps, Keys(params.codecs), ConsumableParameters(kind, params, caps, mapping).value)
  {
    ConsumableSound(h264, kind, params, caps, mapping);
    MapCodecsExact(h264, params.codecs, caps.codecs);
    KeysMatched(h264, params.codecs, caps.codecs);
  }

  lemma {:induction false} KeysMatched(h264: H264, codecs: seq<Codec>, caps: seq<Codec>)
    requires forall c :: c in codecs && !c.IsRtx() ==> Matched(h264, caps, c)
    ensures MatchedKeys(h264, Keys(codecs), caps)
  {
    if codecs != [] {
      assert Last(codecs) in codecs;
      assert forall c :: c in Init(codecs) ==> c in codecs;
      KeysMatched(h264, Init(codecs), caps);
    }
  }

  /** A hop between routers with the same capabilities is always possible, maps every payload type to itself
      and changes nothing but SSRCs, whether or not RTX is enabled on it. */
  lemma HopPreserves(h264: H264, kind: MediaKind, caps: RouterCaps, keys: seq<CodecToMatch>, hop: Hop,
                     before: RtpParameters)
    requires NegotiableCaps(caps.codecs) && IsConsumable(h264, kind, caps, keys, before)
    ensures var piped := PipeConsumerParameters(before, hop.enableRtx, hop.ssrc, hop.rtxSsrc);
            && MapCodecs(h264, piped.codecs, caps.codecs).Ok?
            && (forall c :: c in piped.codecs ==>
                  c in MapCodecs(h264, piped.codecs, caps.codecs).value
                  && MapCodecs(h264, piped.codecs, caps.codecs).value[c] == c.pt)
            && (HopMapping(h264, caps, hop, piped) ==>
                  && ConsumableParameters(kind, piped, caps, hop.mapping).Some?
                  && var after := ConsumableParameters(kind, piped, caps, hop.mapping).value;
                     SameButSsrc(before, after) && IsConsumable(h264, kind, caps, keys, after))
  {
    var piped := PipeConsumerParameters(before, hop.enableRtx, hop.ssrc, hop.rtxSsrc);
    PipedMappingIsIdentity(h264, keys, caps.codecs, hop.enableRtx);
    if HopMapping(h264, caps, hop, piped) {
      PipedCodecsRestored(h264, keys, caps.codecs, hop.enableRtx, hop.mapping.codecs);
    }
  }

  // ----- repeated payload types -----

  /** The producer codecs are matched to different codecs of the router. */
  ghost predicate DistinctMatches(h264: H264, keys: seq<CodecToMatch>, caps: seq<Codec>) {
    forall i, j :: 0 <= i < j < |keys| ==> FirstMatch(h264, keys[i], caps) != FirstMatch(h264, keys[j], caps)
  }

  /** The worker takes only parameters without repeated payload types. Those of a pipe consumer, and the consumable
      ones, have none exactly when the producer codecs are matched to different codecs of the router. */
  lemma HopAcceptedExactly(h264: H264, keys: seq<CodecToMatch>, caps: seq<Codec>, enableRtx: bool)
    requires NegotiableCaps(caps) && MatchedKeys(h264, keys, caps)
    ensures DistinctPts(PipeCodecs(Blocks(h264, keys, caps), enableRtx)) <==> DistinctMatches(h264, keys, caps)
    ensures DistinctPts(Blocks(h264, keys, caps)) <==> DistinctMatches(h264, keys, caps)
  {
    PipedDistinct(h264, keys, caps, enableRtx);
    PipedDistinct(h264, keys, caps, true);
    SamePts(Blocks(h264, keys, caps));
  }

  lemma {:induction false} SamePts(codecs: seq<Codec>)
    ensures |PipeCodecs(codecs, true)| == |codecs|
    ensures forall i :: 0 <= i < |codecs| ==> PipeCodecs(codecs, true)[i].pt == codecs[i].pt
  {
    if codecs != [] {
      SamePts(Init(codecs));
    }
  }

  lemma {:induction false} PipedDistinct(h264: H264, keys: seq<CodecToMatch>, caps: seq<Codec>, enableRtx: bool)
    requires NegotiableCaps(caps) && MatchedKeys(h264, keys, caps)
    ensures DistinctPts(PipeCodecs(Blocks(h264, keys, caps), enableRtx)) <==> DistinctMatches(h264, keys, caps)
  {
    if keys != [] {
      var front, key := Init(keys), Last(keys);
      assert keys == front + [key];
      MatchedSplit(h264, front, key, caps);
      PipedDistinct(h264, front, caps, enableRtx);
      PipeConcat(Blocks(h264, front, caps), BlockFor(h264, key, caps), enableRtx);
      PipedBlock(h264, key, caps, enableRtx);
      if exists k :: k in front && FirstMatch(h264, k, caps) == FirstMatch(h264, key, caps) {
        BlockRepeats(h264, front, key, caps, enableRtx);
      } else {
        BlockDisjoint(h264, front, key, caps, enableRtx);
      }
      DistinctConcat(PipeCodecs(Blocks(h264, front, caps), enableRtx),
                     PipeCodecs(BlockFor(h264, key, caps), enableRtx));
      DistinctMatchesNext(h264, front, key, caps);
    }
  }

  lemma DistinctMatchesNext(h264: H264, front: seq<CodecToMatch>, key: CodecToMatch, caps: seq<Codec>)
    ensures DistinctMatches(h264, front + [key], caps) <==>
            && DistinctMatches(h264, front, caps)
            && forall k :: k in front ==> FirstMatch(h264, k, caps) != FirstMatch(h264, key, caps)
  {
    var keys, n := front + [key], |front|;
    assert keys[n] == key && forall i :: 0 <= i < n ==> keys[i] == front[i];
    if DistinctMatches(h264, keys, caps) {
      forall i, j | 0 <= i < j < n
        ensures FirstMatch(h264, front[i], caps) != FirstMatch(h264, front[j], caps)
      {
        assert FirstMatch(h264, keys[i], caps) != FirstMatch(h264, keys[j], caps);
      }
      forall k | k in front
        ensures FirstMatch(h264, k, caps) != FirstMatch(h264, key, caps)
      {
        var i :| 0 <= i < n && front[i] == k;
        assert FirstMatch(h264, keys[i], caps) != FirstMatch(h264, keys[n], caps);
      }
    } else {
      var i, j :| 0 <= i < j < |keys| && FirstMatch(h264, keys[i], caps) == FirstMatch(h264, keys[j], caps);
      assert keys[i] in front && (j < n ==> !DistinctMatches(h264, front, caps));
    }
  }

  ghost predicate SharePt(a: seq<Codec>, b: seq<Codec>) {
    exists c, d :: c in a && d in b && c.pt == d.pt
  }

  lemma DistinctConcat(a: seq<Codec>, b: seq<Codec>)
    ensures DistinctPts(a + b) <==> DistinctPts(a) && DistinctPts(b) && !SharePt(a, b)
  {
    var all := a + b;
    assert forall i :: 0 <= i < |a| ==> all[i] == a[i];
    assert forall j :: 0 <= j < |b| ==> all[|a| + j] == b[j];
    if SharePt(a, b) {
      var c, d :| c in a && d in b && c.pt == d.pt;
      var i :| 0 <= i < |a| && a[i] == c;
      var j :| 0 <= j < |b| && b[j] == d;
      assert all[i].pt == all[|a| + j].pt;
    }
  }

  lemma {:induction false} PipeConcat(a: seq<Codec>, b: seq<Codec>, enableRtx: bool)
    ensures PipeCodecs(a + b, enableRtx) == PipeCodecs(a, enableRtx) + PipeCodecs(b, enableRtx)
  {
    if b == [] {
      assert a + b == a;
    } else {
      assert Init(a + b) == a + Init(b) && Last(a + b) == Last(b);
      PipeConcat(a, Init(b), enableRtx);
    }
  }

  /** The piped block of a key: its router codec, and the RTX codec of that if RTX is enabled and it has one. */
  lemma PipedBlock(h264: H264, key: CodecToMatch, caps: seq<Codec>, enableRtx: bool)
    requires NegotiableCaps(caps) && !key.mime.IsRtx() && FirstMatch(h264, key, caps).Some?
    ensures DistinctPts(PipeCodecs(BlockFor(h264, key, caps), enableRtx))
  {
    var cap := FirstMatch(h264, key, caps).value;
    var media, rtx := cap.(params := key.params), FirstRtxFor(caps, cap.pt);
    if rtx.Some? {
      RtxPtDiffers(caps, cap, rtx.value);
      PipeTwo(media, rtx.value, enableRtx);
    } else {
      PipeOne(media, enableRtx);
      assert BlockFor(h264, key, caps) == [media];
    }
  }

  lemma PipeTwo(a: Codec, b: Codec, enableRtx: bool)
    requires a.pt != b.pt
    ensures DistinctPts(PipeCodecs([a] + [b], enableRtx))
  {
    PipeOne(a, enableRtx);
    PipeOne(b, enableRtx);
    PipeConcat([a], [b], enableRtx);
    TwoDistinct(PipeCodec(a, enableRtx), PipeCodec(b, enableRtx));
  }

  lemma RtxPtDiffers(caps: seq<Codec>, cap: Codec, rtx: Codec)
    requires DistinctPts(caps) && cap in caps && rtx in caps && rtx.IsRtx() && !cap.IsRtx()
    ensures rtx.pt != cap.pt
  {
    DistinctPtsUnique(caps, cap);
    DistinctPtsUnique(caps, rtx);
  }

  lemma TwoDistinct(a: Codec, b: Codec)
    requires a.pt != b.pt
    ensures DistinctPts([a] + [b]) && DistinctPts([a] + []) && DistinctPts([] + [b])
  {
  }

  lemma PipeOne(c: Codec, enableRtx: bool)
    ensures PipeCodecs([c], enableRtx) == if enableRtx || !c.IsRtx() then [PipeCodec(c, enableRtx)] else []
  {
    assert Init([c]) == [];
  }

  lemma BlockRepeats(h264: H264, front: seq<CodecToMatch>, key: CodecToMatch, caps: seq<Codec>, enableRtx: bool)
    requires MatchedKeys(h264, front + [key], caps)
    requires exists k :: k in front && FirstMatch(h264, k, caps) == FirstMatch(h264, key, caps)
    ensures SharePt(PipeCodecs(Blocks(h264, front, caps), enableRtx), PipeCodecs(BlockFor(h264, key, caps), enableRtx))
  {
    MatchedSplit(h264, front, key, caps);
    var k :| k in front && FirstMatch(h264, k, caps) == FirstMatch(h264, key, caps);
    var cap := FirstMatch(h264, key, caps).value;
    var c, d := cap.(params := k.params), cap.(params := key.params);
    BlocksMember(h264, front, caps, c);
    PipeMember(Blocks(h264, front, caps), enableRtx, PipeCodec(c, enableRtx));
    assert d in BlockFor(h264, key, caps);
    PipeMember(BlockFor(h264, key, caps), enableRtx, PipeCodec(d, enableRtx));
    assert PipeCodec(c, enableRtx).pt == PipeCodec(d, enableRtx).pt;
  }

  lemma BlockDisjoint(h264: H264, front: seq<CodecToMatch>, key: CodecToMatch, caps: seq<Codec>, enableRtx: bool)
    requires NegotiableCaps(caps) && MatchedKeys(h264, front + [key], caps)
    requires forall k :: k in front ==> FirstMatch(h264, k, caps) != FirstMatch(h264, key, caps)
    ensures !SharePt(PipeCodecs(Blocks(h264, front, caps), enableRtx), PipeCodecs(BlockFor(h264, key, caps), enableRtx))
  {
    MatchedSplit(h264, front, key, caps);
    forall x, y | x in PipeCodecs(Blocks(h264, front, caps), enableRtx)
                  && y in PipeCodecs(BlockFor(h264, key, caps), enableRtx)
      ensures x.pt != y.pt
    {
      var c, k := PipedFrom(h264, front, caps, enableRtx, x);
      var d := PipedFromBlock(h264, key, caps, enableRtx, y);
      DifferentBlocks(h264, caps, c, k, d, key);
    }
  }

  lemma PipedFromBlock(h264: H264, key: CodecToMatch, caps: seq<Codec>, enableRtx: bool, y: Codec) returns (d: Codec)
    requires y in PipeCodecs(BlockFor(h264, key, caps), enableRtx)
    ensures FromKey(h264, caps, d, key) && y == PipeCodec(d, enableRtx)
  {
    PipeMember(BlockFor(h264, key, caps), enableRtx, y);
    d :| d in BlockFor(h264, key, caps) && y == PipeCodec(d, enableRtx);
  }

  /** Codecs of blocks for different router codecs have different payload types. */
  lemma DifferentBlocks(h264: H264, caps: seq<Codec>, c: Codec, k: CodecToMatch, d: Codec, j: CodecToMatch)
    requires NegotiableCaps(caps) && FromKey(h264, caps, c, k) && FromKey(h264, caps, d, j)
    requires FirstMatch(h264, k, caps) != FirstMatch(h264, j, caps) && !k.mime.IsRtx() && !j.mime.IsRtx()
    ensures c.pt != d.pt
  {
    var a, b := FirstMatch(h264, k, caps).value, FirstMatch(h264, j, caps).value;
    var x := if c.IsRtx() then c else a;
    var y := if d.IsRtx() then d else b;
    assert x in caps && y in caps && x.pt == c.pt && y.pt == d.pt;
    DistinctPtsUnique(caps, a);
    DistinctPtsUnique(caps, b);
    DistinctPtsUnique(caps, x);
    DistinctPtsUnique(caps, y);
    assert a.pt != b.pt;
  }

  // ----- any number of hops -----

  ghost predicate Chain(h264: H264, kind: MediaKind, caps: RouterCaps, hops: seq<Hop>, chain: seq<RtpParameters>) {
    && |chain| == |hops| + 1
    && forall i :: 0 <= i < |hops| ==> HopsTo(h264, kind, caps, hops[i], chain[i], chain[i + 1])
  }

  /** However many routers a producer is piped through, every one of them derives the same consumable
      parameters, SSRCs aside. */
  lemma {:induction false} ChainPreserves(h264: H264, kind: MediaKind, caps: RouterCaps, hops: seq<Hop>,
                                          chain: seq<RtpParameters>, params: RtpParameters, mapping: RtpMapping, n: nat)
    requires NegotiableCaps(caps.codecs) && DistinctPts(params.codecs)
    requires MapCodecs(h264, params.codecs, caps.codecs).Ok?
    requires Lists(mapping.codecs, MapCodecs(h264, params.codecs, caps.codecs).value)
    requires Chain(h264, kind, caps, hops, chain) && n < |chain|
    requires Some(chain[0]) == ConsumableParameters(kind, params, caps, mapping)
    ensures SameButSsrc(chain[0], chain[n])
    ensures IsConsumable(h264, kind, caps, Keys(params.codecs), chain[n])
    decreases n
  {
    if n == 0 {
      ConsumableForm(h264, kind, params, caps, mapping);
    } else {
      ChainPreserves(h264, kind, caps, hops, chain, params, mapping, n - 1);
      assert HopsTo(h264, kind, caps, hops[n - 1], chain[n - 1], chain[n - 1 + 1]);
      HopPreserves(h264, kind, caps, Keys(params.codecs), hops[n - 1], chain[n - 1]);
    }
  }
}
