/** The mapping from a producer's payload types and encodings to those of the router. */
module ProducerMapping {
  import opened Common
  import opened Rtp
  import opened RouterCapabilities

  /** `MediaCodecNotMapped` is the panic of the Rust version: the `apt` of an RTX codec leads to a codec
      that has not been matched (yet). */
  datatype MappingError =
    | UnsupportedCodec(mime: MimeType, pt: u8)
    | UnsupportedRtxCodec(capPt: u8)
    | MissingMediaCodecForRtx(rtxPt: u8)
    | MediaCodecNotMapped

  /** For each producer codec, the payload type of the router codec it was matched to. */
  type CapPts = map<Codec, u8>

  datatype CodecEntry = CodecEntry(pt: u8, mappedPt: u8)
  datatype EncodingEntry = EncodingEntry(ssrc: Option<nat>, rid: Option<string>, scalabilityMode: string,
                                         mappedSsrc: nat)
  datatype RtpMapping = RtpMapping(codecs: seq<CodecEntry>, encodings: seq<EncodingEntry>)

  function MediaPass(h264: H264, codecs: seq<Codec>, caps: seq<Codec>): Result<CapPts, MappingError> {
    if codecs == [] then Ok(map[]) else
    var m :- MediaPass(h264, Init(codecs), caps);
    var c := Last(codecs);
    if c.IsRtx() then Ok(m) else
    var cap := FirstMatch(h264, c.ToMatch(), caps);
    if cap.None? then Err(MappingError.UnsupportedCodec(c.mime, c.pt)) else Ok(m[c := cap.value.pt])
  }

  function MapRtx(all: seq<Codec>, caps: seq<Codec>, m: CapPts, c: Codec): Result<u8, MappingError> {
    var media := if c.Apt().Some? then FirstByPt(all, c.Apt().value) else None;
    if media.None? then Err(MissingMediaCodecForRtx(c.pt))
    else if media.value !in m then Err(MediaCodecNotMapped)
    else
      var rtx := FirstRtxFor(caps, m[media.value]);
      if rtx.None? then Err(UnsupportedRtxCodec(m[media.value])) else Ok(rtx.value.pt)
  }

  function RtxPass(all: seq<Codec>, codecs: seq<Codec>, caps: seq<Codec>, m: CapPts): Result<CapPts, MappingError> {
    if codecs == [] then Ok(m) else
    var done :- RtxPass(all, Init(codecs), caps, m);
    var c := Last(codecs);
    if !c.IsRtx() then Ok(done) else
    var pt :- MapRtx(all, caps, done, c);
    Ok(done[c := pt])
  }

  function MapCodecs(h264: H264, codecs: seq<Codec>, caps: seq<Codec>): Result<CapPts, MappingError> {
    var m :- MediaPass(h264, codecs, caps);
    RtxPass(codecs, codecs, caps, m)
  }

  function MapEncodings(encodings: seq<Encoding>, ssrc: nat): (r: seq<EncodingEntry>)
    ensures |r| == |encodings|
    ensures forall i :: 0 <= i < |r| ==>
              && r[i].mappedSsrc == ssrc + i && r[i].ssrc == encodings[i].ssrc && r[i].rid == encodings[i].rid
              && r[i].scalabilityMode == encodings[i].settings.scalabilityMode
  {
    if encodings == [] then [] else
    var e := Last(encodings);
    MapEncodings(Init(encodings), ssrc)
    + [EncodingEntry(e.ssrc, e.rid, e.settings.scalabilityMode, ssrc + |encodings| - 1)]
  }

  function EntriesOf(order: seq<Codec>, m: CapPts): (r: seq<CodecEntry>)
    requires forall c :: c in order ==> c in m
    ensures |r| == |order|
    ensures forall i :: 0 <= i < |order| ==> r[i] == CodecEntry(order[i].pt, m[order[i]])
  {
    if order == [] then [] else
    assert Last(order) in order;
    EntriesOf(Init(order), m) + [CodecEntry(Last(order).pt, m[Last(order)])]
  }

  ghost predicate Enumerates(order: seq<Codec>, m: CapPts) {
    && NoDuplicates(order)
    && forall c :: c in order <==> c in m
  }

  /** The entries list the map once per codec, in some order (Rust sorts them, Node keeps insertion order). */
  ghost predicate Lists(entries: seq<CodecEntry>, m: CapPts) {
    exists order :: Enumerates(order, m) && entries == EntriesOf(order, m)
  }

  method GetProducerRtpParametersMapping(h264: H264, params: RtpParameters, caps: RouterCaps, ssrc: nat)
    returns (r: Result<RtpMapping, MappingError>)
    ensures var spec := MapCodecs(h264, params.codecs, caps.codecs);
            match r
            case Err(e) => spec == Err(e)
            case Ok(mapping) =>
              spec.Ok? && Lists(mapping.codecs, spec.value) && mapping.encodings == MapEncodings(params.encodings, ssrc)
  {
    var media := MatchMediaCodecs(h264, params.codecs, caps.codecs);
    if media.Err? {
      return Err(media.error);
    }
    var m := MatchRtxCodecs(params.codecs, caps.codecs, media.value);
    if m.Err? {
      return Err(m.error);
    }
    var entries := ListEntries(m.value);
    var mapped := ListEncodings(params.encodings, ssrc);
    r := Ok(RtpMapping(entries, mapped));
  }

  method ListEncodings(encodings: seq<Encoding>, ssrc: nat) returns (mapped: seq<EncodingEntry>)
    ensures mapped == MapEncodings(encodings, ssrc)
  {
    mapped := [];
    var mappedSsrc := ssrc;
    for i := 0 to |encodings|
      invariant mapped == MapEncodings(encodings[..i], ssrc)
      invariant mappedSsrc == ssrc + i
    {
      PrefixStep(encodings, i);
      var e := encodings[i];
      mapped := mapped + [EncodingEntry(e.ssrc, e.rid, e.settings.scalabilityMode, mappedSsrc)];
      mappedSsrc := mappedSsrc + 1;
    }
    assert encodings[..|encodings|] == encodings;
  }

  method MatchMediaCodecs(h264: H264, codecs: seq<Codec>, caps: seq<Codec>) returns (r: Result<CapPts, MappingError>)
    ensures r == MediaPass(h264, codecs, caps)
  {
    var m: CapPts := map[];
    for i := 0 to |codecs|
      invariant MediaPass(h264, codecs[..i], caps) == Ok(m)
    {
      PrefixStep(codecs, i);
      MediaPassErrSticks(h264, codecs, caps, i + 1);
      var c := codecs[i];
      if !c.IsRtx() {
        var cap := FirstMatch(h264, c.ToMatch(), caps);
        if cap.None? {
          return Err(MappingError.UnsupportedCodec(c.mime, c.pt));
        }
        m := m[c := cap.value.pt];
      }
    }
    assert codecs[..|codecs|] == codecs;
    r := Ok(m);
  }

  method MatchRtxCodecs(codecs: seq<Codec>, caps: seq<Codec>, media: CapPts) returns (r: Result<CapPts, MappingError>)
    ensures r == RtxPass(codecs, codecs, caps, media)
  {
    var m := media;
    for i := 0 to |codecs|
      invariant RtxPass(codecs, codecs[..i], caps, media) == Ok(m)
    {
      PrefixStep(codecs, i);
      RtxPassErrSticks(codecs, codecs, caps, media, i + 1);
      var c := codecs[i];
      if c.IsRtx() {
        var associated := if c.Apt().Some? then FirstByPt(codecs, c.Apt().value) else None;
        if associated.None? {
          return Err(MissingMediaCodecForRtx(c.pt));
        }
        if associated.value !in m {
          return Err(MediaCodecNotMapped);
        }
        var rtx := FirstRtxFor(caps, m[associated.value]);
        if rtx.None? {
          return Err(UnsupportedRtxCodec(m[associated.value]));
        }
        m := m[c := rtx.value.pt];
      }
    }
    assert codecs[..|codecs|] == codecs;
    r := Ok(m);
  }

  method ListEntries(m: CapPts) returns (entries: seq<CodecEntry>)
    ensures Lists(entries, m)
  {
    entries := [];
    var todo := m.Keys;
    ghost var order := [];
    while todo != {}
      invariant todo <= m.Keys
      invariant NoDuplicates(order)
      invariant forall c :: c in order <==> c in m && c !in todo
      invariant entries == EntriesOf(order, m)
      decreases todo
    {
      var c :| c in todo;
      assert Init(order + [c]) == order;
      entries := entries + [CodecEntry(c.pt, m[c])];
      order := order + [c];
      todo := todo - {c};
    }
    assert Enumerates(order, m);
  }

  lemma {:induction false} MediaPassErrSticks(h264: H264, codecs: seq<Codec>, caps: seq<Codec>, n: nat)
    requires n <= |codecs|
    ensures MediaPass(h264, codecs[..n], caps).Err? ==>
              MediaPass(h264, codecs, caps) == MediaPass(h264, codecs[..n], caps)
    decreases |codecs|
  {
    if n == |codecs| {
      assert codecs[..n] == codecs;
    } else {
      assert Init(codecs)[..n] == codecs[..n];
      MediaPassErrSticks(h264, Init(codecs), caps, n);
    }
  }

  lemma {:induction false} RtxPassErrSticks(all: seq<Codec>, codecs: seq<Codec>, caps: seq<Codec>, m: CapPts, n: nat)
    requires n <= |codecs|
    ensures RtxPass(all, codecs[..n], caps, m).Err? ==>
              RtxPass(all, codecs, caps, m) == RtxPass(all, codecs[..n], caps, m)
    decreases |codecs|
  {
    if n == |codecs| {
      assert codecs[..n] == codecs;
    } else {
      assert Init(codecs)[..n] == codecs[..n];
      RtxPassErrSticks(all, Init(codecs), caps, m, n);
    }
  }

  // ----- the mapping in closed form -----

  /** A media codec matches some router codec. */
  ghost predicate Matched(h264: H264, caps: seq<Codec>, c: Codec) {
    FirstMatch(h264, c.ToMatch(), caps).Some?
  }

  ghost function MatchedPt(h264: H264, caps: seq<Codec>, c: Codec): u8
    requires Matched(h264, caps, c)
  {
    FirstMatch(h264, c.ToMatch(), caps).value.pt
  }

  /** `c` is an RTX codec whose `apt` leads to the matched media codec `d`, for which the router has an RTX codec. */
  ghost predicate RtxOf(h264: H264, codecs: seq<Codec>, caps: seq<Codec>, c: Codec, d: Codec) {
    && c.Apt().Some? && FirstByPt(codecs, c.Apt().value) == Some(d)
    && !d.IsRtx() && Matched(h264, caps, d)
    && FirstRtxFor(caps, MatchedPt(h264, caps, d)).Some?
  }

  ghost predicate Mappable(h264: H264, codecs: seq<Codec>, caps: seq<Codec>, c: Codec) {
    if c.IsRtx() then exists d :: RtxOf(h264, codecs, caps, c, d) else Matched(h264, caps, c)
  }

  /** The payload type that a mappable codec must be mapped to. */
  ghost predicate MapsTo(h264: H264, codecs: seq<Codec>, caps: seq<Codec>, c: Codec, pt: u8) {
    if c.IsRtx() then
      exists d :: RtxOf(h264, codecs, caps, c, d) && pt == FirstRtxFor(caps, MatchedPt(h264, caps, d)).value.pt
    else
      Matched(h264, caps, c) && pt == MatchedPt(h264, caps, c)
  }

  /** The passes over the codecs succeed exactly when every codec is mappable, and then give each codec the
      payload type that its definition calls for. */
  lemma MapCodecsExact(h264: H264, codecs: seq<Codec>, caps: seq<Codec>)
    requires NegotiableCaps(caps)
    ensures MapCodecs(h264, codecs, caps).Ok? <==> forall c :: c in codecs ==> Mappable(h264, codecs, caps, c)
    ensures MapCodecs(h264, codecs, caps).Ok? ==>
              var m := MapCodecs(h264, codecs, caps).value;
              && (forall c :: c in m <==> c in codecs)
              && (forall c :: c in codecs ==> MapsTo(h264, codecs, caps, c, m[c]))
  {
    MediaPassExact(h264, codecs, caps);
    if MediaPass(h264, codecs, caps).Ok? {
      RtxPassExact(h264, codecs, codecs, caps);
    }
  }

  lemma {:induction false} MediaPassExact(h264: H264, codecs: seq<Codec>, caps: seq<Codec>)
    ensures MediaPass(h264, codecs, caps).Ok? <==> forall c :: c in codecs && !c.IsRtx() ==> Matched(h264, caps, c)
    ensures MediaPass(h264, codecs, caps).Ok? ==>
              var m := MediaPass(h264, codecs, caps).value;
              && (forall c :: c in m <==> c in codecs && !c.IsRtx())
              && (forall c :: c in m ==> Matched(h264, caps, c) && m[c] == MatchedPt(h264, caps, c))
  {
    if codecs != [] {
      MediaPassExact(h264, Init(codecs), caps);
      assert codecs == Init(codecs) + [Last(codecs)];
    }
  }

  ghost predicate AllMatched(h264: H264, codecs: seq<Codec>, caps: seq<Codec>) {
    forall c :: c in codecs && !c.IsRtx() ==> Matched(h264, caps, c)
  }

  ghost predicate AllMappable(h264: H264, all: seq<Codec>, codecs: seq<Codec>, caps: seq<Codec>) {
    forall c :: c in codecs && c.IsRtx() ==> Mappable(h264, all, caps, c)
  }

  /** All media codecs and the RTX codecs seen so far are mapped, each to what its definition calls for. */
  ghost predicate Mapped(h264: H264, all: seq<Codec>, seen: seq<Codec>, caps: seq<Codec>, m: CapPts) {
    && (forall c :: c in m <==> c in all && (c.IsRtx() ==> c in seen))
    && (forall c :: c in m ==> MapsTo(h264, all, caps, c, m[c]))
  }

  lemma {:induction false} RtxPassExact(h264: H264, all: seq<Codec>, codecs: seq<Codec>, caps: seq<Codec>)
    requires NegotiableCaps(caps) && MediaPass(h264, all, caps).Ok?
    requires forall c :: c in codecs ==> c in all
    ensures var r := RtxPass(all, codecs, caps, MediaPass(h264, all, caps).value);
            (r.Ok? <==> AllMappable(h264, all, codecs, caps)) && (r.Ok? ==> Mapped(h264, all, codecs, caps, r.value))
  {
    var m := MediaPass(h264, all, caps).value;
    if codecs == [] {
      MediaPassExact(h264, all, caps);
    } else {
      var front, c := Init(codecs), Last(codecs);
      assert codecs == front + [c] && c in codecs;
      RtxPassExact(h264, all, front, caps);
      assert AllMappable(h264, all, codecs, caps) <==>
             AllMappable(h264, all, front, caps) && (c.IsRtx() ==> Mappable(h264, all, caps, c));
      var done := RtxPass(all, front, caps, m);
      if done.Ok? && c.IsRtx() {
        MapRtxExact(h264, all, caps, done.value, c);
        if MapRtx(all, caps, done.value, c).Ok? {
          MappedNext(h264, all, front, caps, done.value, c, MapRtx(all, caps, done.value, c).value);
        }
      } else if done.Ok? {
        MappedMedia(h264, all, front, caps, done.value, c);
      }
    }
  }

  lemma MappedNext(h264: H264, all: seq<Codec>, seen: seq<Codec>, caps: seq<Codec>, m: CapPts, c: Codec, pt: u8)
    requires Mapped(h264, all, seen, caps, m) && c in all && c.IsRtx() && MapsTo(h264, all, caps, c, pt)
    ensures Mapped(h264, all, seen + [c], caps, m[c := pt])
  {
  }

  lemma MappedMedia(h264: H264, all: seq<Codec>, seen: seq<Codec>, caps: seq<Codec>, m: CapPts, c: Codec)
    requires Mapped(h264, all, seen, caps, m) && !c.IsRtx()
    ensures Mapped(h264, all, seen + [c], caps, m)
  {
  }

  lemma MapRtxExact(h264: H264, all: seq<Codec>, caps: seq<Codec>, m: CapPts, c: Codec)
    requires NegotiableCaps(caps) && c.IsRtx()
    requires forall x :: x in all && !x.IsRtx() ==> x in m
    requires forall x :: x in m ==> MapsTo(h264, all, caps, x, m[x])
    ensures MapRtx(all, caps, m, c).Ok? <==> Mappable(h264, all, caps, c)
    ensures MapRtx(all, caps, m, c).Ok? ==> MapsTo(h264, all, caps, c, MapRtx(all, caps, m, c).value)
  {
    if c.Apt().Some? && FirstByPt(all, c.Apt().value).Some? {
      var d := FirstByPt(all, c.Apt().value).value;
      if d.IsRtx() && d in m {
        assert MapsTo(h264, all, caps, d, m[d]);
        RtxHasNoRtx(caps, m[d]);
      } else if d in m {
        assert MapsTo(h264, all, caps, d, m[d]);
        assert FirstRtxFor(caps, m[d]).Some? ==> RtxOf(h264, all, caps, c, d);
      }
    }
  }

  /** No RTX codec of a router names another RTX codec. */
  lemma RtxHasNoRtx(caps: seq<Codec>, pt: u8)
    requires NegotiableCaps(caps)
    requires exists r :: r in caps && r.IsRtx() && r.pt == pt
    ensures FirstRtxFor(caps, pt).None?
  {
    forall i | 0 <= i < |caps|
      ensures !(caps[i].IsRtx() && caps[i].Apt() == Some(pt))
    {
      assert LinkedAt(caps, i);
    }
  }

  lemma MapsToUnique(h264: H264, codecs: seq<Codec>, caps: seq<Codec>, c: Codec, p: u8, q: u8)
    requires MapsTo(h264, codecs, caps, c, p) && MapsTo(h264, codecs, caps, c, q)
    ensures p == q
  {
  }

  // ----- the errors -----

  /** Why an RTX codec cannot be mapped, when the RTX codecs that have been are `seen`: its `apt` leads to no codec;
      or to an RTX codec that has not been mapped yet; or to a codec mapped to one that has no RTX codec. */
  ghost predicate RtxFailure(h264: H264, all: seq<Codec>, caps: seq<Codec>, seen: seq<Codec>, c: Codec,
                             e: MappingError)
  {
    var named := if c.Apt().Some? then FirstByPt(all, c.Apt().value) else None;
    match e
    case UnsupportedCodec(_, _) => false
    case MissingMediaCodecForRtx(pt) => named.None? && pt == c.pt
    case MediaCodecNotMapped => named.Some? && named.value.IsRtx() && named.value !in seen
    case UnsupportedRtxCodec(capPt) =>
      && named.Some? && (named.value.IsRtx() ==> named.value in seen)
      && MapsTo(h264, all, caps, named.value, capPt) && FirstRtxFor(caps, capPt).None?
  }

  /** The codec at `n` is the first that its pass cannot map, and `e` says why. */
  ghost predicate FailsAt(h264: H264, codecs: seq<Codec>, caps: seq<Codec>, n: int, e: MappingError) {
    && 0 <= n < |codecs|
    && if codecs[n].IsRtx() then
         && AllMatched(h264, codecs, caps)
         && AllMappable(h264, codecs, codecs[..n], caps)
         && RtxFailure(h264, codecs, caps, codecs[..n], codecs[n], e)
       else
         && AllMatched(h264, codecs[..n], caps) && !Matched(h264, caps, codecs[n])
         && e == MappingError.UnsupportedCodec(codecs[n].mime, codecs[n].pt)
  }

  /** Each error is given exactly for the codec lists that call for it. In particular the Rust version panics exactly
      when every media codec is matched and the first RTX codec that is not mappable names an RTX codec that does not
      come before it. */
  lemma MapErrorExactly(h264: H264, codecs: seq<Codec>, caps: seq<Codec>, e: MappingError)
    requires NegotiableCaps(caps)
    ensures MapCodecs(h264, codecs, caps) == Err(e) <==> exists n :: FailsAt(h264, codecs, caps, n, e)
  {
    MediaPassExact(h264, codecs, caps);
    if MapCodecs(h264, codecs, caps) == Err(e) {
      if MediaPass(h264, codecs, caps).Err? {
        var n := FirstUnmatched(h264, codecs, caps);
        assert FailsAt(h264, codecs, caps, n, e);
      } else {
        var n := FirstUnmappable(h264, codecs, codecs, caps);
        assert codecs[..|codecs|] == codecs;
        assert FailsAt(h264, codecs, caps, n, e);
      }
    }
    if exists n :: FailsAt(h264, codecs, caps, n, e) {
      var n :| FailsAt(h264, codecs, caps, n, e);
      if codecs[n].IsRtx() {
        RtxFails(h264, codecs, caps, n, e);
      } else {
        MediaFails(h264, codecs, caps, n);
      }
    }
  }

  lemma MediaFails(h264: H264, codecs: seq<Codec>, caps: seq<Codec>, n: nat)
    requires n < |codecs| && !codecs[n].IsRtx()
    requires AllMatched(h264, codecs[..n], caps) && !Matched(h264, caps, codecs[n])
    ensures MediaPass(h264, codecs, caps) == Err(MappingError.UnsupportedCodec(codecs[n].mime, codecs[n].pt))
  {
    MediaPassExact(h264, codecs[..n], caps);
    PrefixStep(codecs, n);
    MediaPassErrSticks(h264, codecs, caps, n + 1);
  }

  lemma {:induction false} FirstUnmatched(h264: H264, codecs: seq<Codec>, caps: seq<Codec>) returns (n: nat)
    requires MediaPass(h264, codecs, caps).Err?
    ensures FailsAt(h264, codecs, caps, n, MediaPass(h264, codecs, caps).error) && !codecs[n].IsRtx()
  {
    if MediaPass(h264, Init(codecs), caps).Err? {
      n := FirstUnmatched(h264, Init(codecs), caps);
      assert Init(codecs)[..n] == codecs[..n];
    } else {
      n := |codecs| - 1;
      MediaPassExact(h264, Init(codecs), caps);
    }
  }

  /** The first RTX codec that the second pass fails at. */
  lemma {:induction false} FirstUnmappable(h264: H264, all: seq<Codec>, codecs: seq<Codec>, caps: seq<Codec>)
    returns (n: nat)
    requires NegotiableCaps(caps) && MediaPass(h264, all, caps).Ok? && codecs <= all
    requires RtxPass(all, codecs, caps, MediaPass(h264, all, caps).value).Err?
    ensures n < |codecs| && codecs[n].IsRtx() && AllMappable(h264, all, codecs[..n], caps)
    ensures RtxFailure(h264, all, caps, codecs[..n], codecs[n],
                       RtxPass(all, codecs, caps, MediaPass(h264, all, caps).value).error)
  {
    var m := MediaPass(h264, all, caps).value;
    var done := RtxPass(all, Init(codecs), caps, m);
    if done.Err? {
      n := FirstUnmappable(h264, all, Init(codecs), caps);
      assert Init(codecs)[..n] == codecs[..n];
    } else {
      n := |codecs| - 1;
      assert codecs[..n] == Init(codecs);
      RtxPassExact(h264, all, Init(codecs), caps);
      RtxFailureIs(h264, all, caps, done.value, Init(codecs), codecs[n], RtxPass(all, codecs, caps, m).error);
    }
  }

  lemma RtxFails(h264: H264, codecs: seq<Codec>, caps: seq<Codec>, n: nat, e: MappingError)
    requires NegotiableCaps(caps) && FailsAt(h264, codecs, caps, n, e) && codecs[n].IsRtx()
    ensures MapCodecs(h264, codecs, caps) == Err(e)
  {
    MediaPassExact(h264, codecs, caps);
    var m := MediaPass(h264, codecs, caps).value;
    RtxPassExact(h264, codecs, codecs[..n], caps);
    PrefixStep(codecs, n);
    RtxFailureIs(h264, codecs, caps, RtxPass(codecs, codecs[..n], caps, m).value, codecs[..n], codecs[n], e);
    RtxPassErrSticks(codecs, codecs, caps, m, n + 1);
  }

  lemma RtxFailureIs(h264: H264, all: seq<Codec>, caps: seq<Codec>, m: CapPts, seen: seq<Codec>, c: Codec,
                     e: MappingError)
    requires Mapped(h264, all, seen, caps, m)
    ensures MapRtx(all, caps, m, c) == Err(e) <==> RtxFailure(h264, all, caps, seen, c, e)
  {
    var named := if c.Apt().Some? then FirstByPt(all, c.Apt().value) else None;
    if named.Some? && named.value in m && e.UnsupportedRtxCodec? && MapsTo(h264, all, caps, named.value, e.capPt) {
      MapsToUnique(h264, all, caps, named.value, e.capPt, m[named.value]);
    }
  }

  /** A producer that panics the Rust version: an RTX codec whose `apt` is its own payload type. */
  lemma SelfAptPanics(h264: H264)
    ensures var caps := [Codec(Vp8, 101, 90000, None, map[], []),
                         Codec(VideoRtx, 102, 90000, None, map["apt" := Num(101)], [])];
            var codecs := [Codec(Vp8, 96, 90000, None, map[], []),
                           Codec(VideoRtx, 97, 90000, None, map["apt" := Num(97)], [])];
            NegotiableCaps(caps) && MapCodecs(h264, codecs, caps) == Err(MediaCodecNotMapped)
  {
    var caps := [Codec(Vp8, 101, 90000, None, map[], []),
                 Codec(VideoRtx, 102, 90000, None, map["apt" := Num(101)], [])];
    var codecs := [Codec(Vp8, 96, 90000, None, map[], []),
                   Codec(VideoRtx, 97, 90000, None, map["apt" := Num(97)], [])];
    assert FirstMatch(h264, codecs[0].ToMatch(), caps) == Some(caps[0]);
    assert FirstByPt(codecs[1..], 97) == Some(codecs[1]);
    assert FailsAt(h264, codecs, caps, 1, MediaCodecNotMapped);
    MapErrorExactly(h264, codecs, caps, MediaCodecNotMapped);
  }

  /** A media codec is mapped to the payload type of the first codec of the router that it agrees with. */
  lemma MappedToFirst(h264: H264, codecs: seq<Codec>, caps: seq<Codec>, c: Codec)
    requires NegotiableCaps(caps) && c in codecs && !c.IsRtx() && MapCodecs(h264, codecs, caps).Ok?
    ensures var m := MapCodecs(h264, codecs, caps).value;
            c in m && exists i :: FirstAgreeing(h264, Look(c), caps, i) && m[c] == caps[i].pt
  {
    MapCodecsExact(h264, codecs, caps);
    assert MapsTo(h264, codecs, caps, c, MapCodecs(h264, codecs, caps).value[c]);
    FirstMatchIsFirst(h264, Look(c), caps);
  }

  /** A codec is unsupported exactly when it agrees with no codec of the router. */
  ghost predicate AgreesWithNone(h264: H264, caps: seq<Codec>, c: Codec) {
    forall i :: 0 <= i < |caps| ==> !Agree(h264, Look(c), Look(caps[i]), true)
  }

  /** The mapping is refused for an unsupported codec exactly when it is the first media codec that agrees with none. */
  lemma UnsupportedExactly(h264: H264, codecs: seq<Codec>, caps: seq<Codec>, mime: MimeType, pt: u8)
    requires NegotiableCaps(caps)
    ensures MapCodecs(h264, codecs, caps) == Err(MappingError.UnsupportedCodec(mime, pt)) <==>
            exists n :: UnsupportedAt(h264, codecs, caps, n) && codecs[n].mime == mime && codecs[n].pt == pt
  {
    forall c
      ensures Matched(h264, caps, c) <==> !AgreesWithNone(h264, caps, c)
    {
      FirstMatchIsFirst(h264, Look(c), caps);
    }
    var e := MappingError.UnsupportedCodec(mime, pt);
    MapErrorExactly(h264, codecs, caps, e);
    if MapCodecs(h264, codecs, caps) == Err(e) {
      var n :| FailsAt(h264, codecs, caps, n, e);
      assert forall k :: 0 <= k < n ==> codecs[k] in codecs[..n];
      assert UnsupportedAt(h264, codecs, caps, n);
    }
    if exists n :: UnsupportedAt(h264, codecs, caps, n) && codecs[n].mime == mime && codecs[n].pt == pt {
      var n :| UnsupportedAt(h264, codecs, caps, n) && codecs[n].mime == mime && codecs[n].pt == pt;
      assert FailsAt(h264, codecs, caps, n, e);
    }
  }

  ghost predicate UnsupportedAt(h264: H264, codecs: seq<Codec>, caps: seq<Codec>, n: int) {
    && 0 <= n < |codecs| && !codecs[n].IsRtx() && AgreesWithNone(h264, caps, codecs[n])
    && forall k :: 0 <= k < n && !codecs[k].IsRtx() ==> !AgreesWithNone(h264, caps, codecs[k])
  }

  /** Mapping commutes with `apt`: a mapped RTX codec becomes the router's RTX codec whose `apt` is what the
      RTX codec's own media codec is mapped to. */
  lemma MappingCommutesWithApt(h264: H264, codecs: seq<Codec>, caps: seq<Codec>, c: Codec)
    requires NegotiableCaps(caps) && c in codecs && c.IsRtx()
    requires MapCodecs(h264, codecs, caps).Ok?
    ensures var m := MapCodecs(h264, codecs, caps).value;
            exists d, rtx :: && d in codecs && !d.IsRtx() && c.Apt() == Some(d.pt) && d in m && c in m
                             && rtx in caps && rtx.IsRtx() && rtx.pt == m[c] && rtx.Apt() == Some(m[d])
  {
    MapCodecsExact(h264, codecs, caps);
    var m := MapCodecs(h264, codecs, caps).value;
    assert MapsTo(h264, codecs, caps, c, m[c]);
    var d :| RtxOf(h264, codecs, caps, c, d) && m[c] == FirstRtxFor(caps, MatchedPt(h264, caps, d)).value.pt;
    assert d in codecs && MapsTo(h264, codecs, caps, d, m[d]);
    var rtx := FirstRtxFor(caps, m[d]).value;
    assert rtx.pt == m[c];
  }
}
