/** The RTP parameters that a router derives from a producer's, from which consumers are later made. */
module Consumable {
  import opened Common
  import opened Rtp
  import opened RouterCapabilities
  import opened ProducerMapping

  function FirstEntry(entries: seq<CodecEntry>, pt: u8): (r: Option<u8>)
    ensures r.Some? ==> CodecEntry(pt, r.value) in entries
    ensures r.None? ==> forall e :: e in entries ==> e.pt != pt
  {
    if entries == [] then None
    else if entries[0].pt == pt then Some(entries[0].mappedPt)
    else FirstEntry(entries[1..], pt)
  }

  /** The router's codec with the producer's own codec parameters, then the router's RTX codec for it, if any. */
  function Block(cap: Codec, params: Params, caps: seq<Codec>): seq<Codec> {
    var rtx := FirstRtxFor(caps, cap.pt);
    [cap.(params := params)] + if rtx.Some? then [rtx.value] else []
  }

  /** None stands for a failed `unwrap` of one of the two lookups. */
  function ConsumableCodec(codec: Codec, caps: seq<Codec>, entries: seq<CodecEntry>): Option<seq<Codec>> {
    var pt := FirstEntry(entries, codec.pt);
    if pt.None? then None else
    var cap := FirstByPt(caps, pt.value);
    if cap.None? then None else Some(Block(cap.value, codec.params, caps))
  }

  function ConsumableCodecs(codecs: seq<Codec>, caps: seq<Codec>, entries: seq<CodecEntry>): Option<seq<Codec>> {
    if codecs == [] then Some([]) else
    var done := ConsumableCodecs(Init(codecs), caps, entries);
    if done.None? || Last(codecs).IsRtx() then done else
    var more := ConsumableCodec(Last(codecs), caps, entries);
    if more.None? then None else Some(done.value + more.value)
  }

  function ConsumableExtensions(kind: MediaKind, extensions: seq<HeaderExtension>): seq<ExtensionParameters> {
    if extensions == [] then [] else
    var done := ConsumableExtensions(kind, Init(extensions));
    var ext := Last(extensions);
    if ext.kind != kind || !(ext.direction.SendRecv? || ext.direction.SendOnly?) then done
    else done + [ExtensionParameters(ext.uri, ext.preferredId, ext.preferredEncrypt)]
  }

  function ConsumableEncoding(e: Encoding, mappedSsrc: nat): Encoding {
    Encoding(Some(mappedSsrc), None, None, None, e.settings)
  }

  function Min(a: nat, b: nat): nat { if a < b then a else b }

  function ConsumableEncodings(encodings: seq<Encoding>, mapped: seq<EncodingEntry>): (r: seq<Encoding>)
    ensures |r| == Min(|encodings|, |mapped|)
    ensures forall i :: 0 <= i < |r| ==> r[i] == ConsumableEncoding(encodings[i], mapped[i].mappedSsrc)
  {
    seq(Min(|encodings|, |mapped|), i requires 0 <= i < Min(|encodings|, |mapped|) =>
      ConsumableEncoding(encodings[i], mapped[i].mappedSsrc))
  }

  function ConsumableParameters(kind: MediaKind, params: RtpParameters, caps: RouterCaps, mapping: RtpMapping)
    : Option<RtpParameters>
  {
    var codecs := ConsumableCodecs(params.codecs, caps.codecs, mapping.codecs);
    if codecs.None? then None else
    Some(RtpParameters(None, codecs.value, ConsumableExtensions(kind, caps.headerExtensions),
                       ConsumableEncodings(params.encodings, mapping.encodings),
                       Rtcp(params.rtcp.cname, true, Some(true))))
  }

  method GetConsumableRtpParameters(kind: MediaKind, params: RtpParameters, caps: RouterCaps, mapping: RtpMapping)
    returns (r: Option<RtpParameters>)
    ensures r == ConsumableParameters(kind, params, caps, mapping)
  {
    var codecs := BuildCodecs(params.codecs, caps.codecs, mapping.codecs);
    if codecs.None? {
      return None;
    }
    var extensions := BuildExtensions(kind, caps.headerExtensions);
    var encodings := [];
    for i := 0 to Min(|params.encodings|, |mapping.encodings|)
      invariant |encodings| == i
      invariant forall k :: 0 <= k < i ==>
                  encodings[k] == ConsumableEncoding(params.encodings[k], mapping.encodings[k].mappedSsrc)
    {
      var encoding := params.encodings[i].(rid := None, rtxSsrc := None, codecPt := None);
      encodings := encodings + [encoding.(ssrc := Some(mapping.encodings[i].mappedSsrc))];
    }
    assert encodings == ConsumableEncodings(params.encodings, mapping.encodings);
    r := Some(RtpParameters(None, codecs.value, extensions, encodings, Rtcp(params.rtcp.cname, true, Some(true))));
  }

  method BuildCodecs(codecs: seq<Codec>, caps: seq<Codec>, entries: seq<CodecEntry>) returns (r: Option<seq<Codec>>)
    ensures r == ConsumableCodecs(codecs, caps, entries)
  {
    var out: seq<Codec> := [];
    for i := 0 to |codecs|
      invariant ConsumableCodecs(codecs[..i], caps, entries) == Some(out)
    {
      PrefixStep(codecs, i);
      ConsumableNoneSticks(codecs, caps, entries, i + 1);
      if !codecs[i].IsRtx() {
        var pt := FirstEntry(entries, codecs[i].pt);
        if pt.None? {
          return None;
        }
        var cap := FirstByPt(caps, pt.value);
        if cap.None? {
          return None;
        }
        var block := [cap.value.(params := codecs[i].params)];
        var rtx := FirstRtxFor(caps, cap.value.pt);
        if rtx.Some? {
          block := block + [rtx.value];
        }
        assert block == Block(cap.value, codecs[i].params, caps);
        out := out + block;
      }
    }
    assert codecs[..|codecs|] == codecs;
    r := Some(out);
  }

  method BuildExtensions(kind: MediaKind, extensions: seq<HeaderExtension>) returns (out: seq<ExtensionParameters>)
    ensures out == ConsumableExtensions(kind, extensions)
  {
    out := [];
    for i := 0 to |extensions|
      invariant out == ConsumableExtensions(kind, extensions[..i])
    {
      PrefixStep(extensions, i);
      var ext := extensions[i];
      if ext.kind == kind && (ext.direction.SendRecv? || ext.direction.SendOnly?) {
        out := out + [ExtensionParameters(ext.uri, ext.preferredId, ext.preferredEncrypt)];
      }
    }
    assert extensions[..|extensions|] == extensions;
  }

  lemma {:induction false} ConsumableNoneSticks(codecs: seq<Codec>, caps: seq<Codec>, entries: seq<CodecEntry>, n: nat)
    requires n <= |codecs|
    ensures ConsumableCodecs(codecs[..n], caps, entries).None? ==> ConsumableCodecs(codecs, caps, entries).None?
    decreases |codecs|
  {
    if n == |codecs| {
      assert codecs[..n] == codecs;
    } else {
      assert Init(codecs)[..n] == codecs[..n];
      ConsumableNoneSticks(Init(codecs), caps, entries, n);
    }
  }

  // ----- what the consumable codecs are, without the mapping -----

  /** What codec matching sees of the media codecs of a list. */
  function Keys(codecs: seq<Codec>): seq<CodecToMatch> {
    if codecs == [] then []
    else if Last(codecs).IsRtx() then Keys(Init(codecs))
    else Keys(Init(codecs)) + [Last(codecs).ToMatch()]
  }

  function BlockFor(h264: H264, key: CodecToMatch, caps: seq<Codec>): seq<Codec> {
    var cap := FirstMatch(h264, key, caps);
    if cap.Some? then Block(cap.value, key.params, caps) else []
  }

  /** One block per media codec: its first match in the router and that codec's RTX codec. */
  function Blocks(h264: H264, keys: seq<CodecToMatch>, caps: seq<Codec>): seq<Codec> {
    if keys == [] then [] else Blocks(h264, Init(keys), caps) + BlockFor(h264, Last(keys), caps)
  }

  /** Codecs that share a payload type are mapped to the same one. */
  ghost predicate PtFunctional(m: CapPts) {
    forall c, d :: c in m && d in m && c.pt == d.pt ==> m[c] == m[d]
  }

  lemma LookupListed(entries: seq<CodecEntry>, m: CapPts, c: Codec)
    requires Lists(entries, m) && PtFunctional(m) && c in m
    ensures FirstEntry(entries, c.pt) == Some(m[c])
  {
    var order :| Enumerates(order, m) && entries == EntriesOf(order, m);
    EntryFound(entries, order, m, c);
    FirstEntryIs(entries, c.pt, m[c]);
  }

  lemma EntryFound(entries: seq<CodecEntry>, order: seq<Codec>, m: CapPts, c: Codec)
    requires Enumerates(order, m) && entries == EntriesOf(order, m) && PtFunctional(m) && c in m
    ensures exists i :: 0 <= i < |entries| && entries[i].pt == c.pt
    ensures forall i :: 0 <= i < |entries| && entries[i].pt == c.pt ==> entries[i].mappedPt == m[c]
  {
    var i :| 0 <= i < |order| && order[i] == c;
    assert entries[i].pt == c.pt;
    forall j | 0 <= j < |entries| && entries[j].pt == c.pt
      ensures entries[j].mappedPt == m[c]
    {
      assert order[j] in order && entries[j] == CodecEntry(order[j].pt, m[order[j]]);
    }
  }

  lemma {:induction false} FirstEntryIs(entries: seq<CodecEntry>, pt: u8, mapped: u8)
    requires exists i :: 0 <= i < |entries| && entries[i].pt == pt
    requires forall i :: 0 <= i < |entries| && entries[i].pt == pt ==> entries[i].mappedPt == mapped
    ensures FirstEntry(entries, pt) == Some(mapped)
  {
    if entries[0].pt != pt {
      var i :| 0 <= i < |entries| && entries[i].pt == pt;
      assert entries[1..][i - 1].pt == pt;
      FirstEntryIs(entries[1..], pt, mapped);
    }
  }

  /** On a mapping of its own codecs no lookup misses, and the result is the sequence of blocks. */
  lemma ConsumableIsBlocks(h264: H264, codecs: seq<Codec>, caps: seq<Codec>, entries: seq<CodecEntry>)
    requires NegotiableCaps(caps)
    requires MapCodecs(h264, codecs, caps).Ok? && PtFunctional(MapCodecs(h264, codecs, caps).value)
    requires Lists(entries, MapCodecs(h264, codecs, caps).value)
    ensures ConsumableCodecs(codecs, caps, entries) == Some(Blocks(h264, Keys(codecs), caps))
  {
    forall c | c in codecs && !c.IsRtx()
      ensures ConsumableCodec(c, caps, entries) == Some(BlockFor(h264, c.ToMatch(), caps))
    {
      BlockMade(h264, codecs, caps, entries, c);
    }
    BlocksJoined(h264, codecs, caps, entries);
  }

  lemma {:induction false} BlocksJoined(h264: H264, codecs: seq<Codec>, caps: seq<Codec>, entries: seq<CodecEntry>)
    requires forall c :: c in codecs && !c.IsRtx() ==>
               ConsumableCodec(c, caps, entries) == Some(BlockFor(h264, c.ToMatch(), caps))
    ensures ConsumableCodecs(codecs, caps, entries) == Some(Blocks(h264, Keys(codecs), caps))
  {
    if codecs != [] {
      BlocksJoined(h264, Init(codecs), caps, entries);
      if !Last(codecs).IsRtx() {
        assert Last(codecs) in codecs && Init(Keys(codecs)) == Keys(Init(codecs));
        assert Last(Keys(codecs)) == Last(codecs).ToMatch();
      }
    }
  }

  /** A media codec becomes its block. */
  lemma BlockMade(h264: H264, codecs: seq<Codec>, caps: seq<Codec>, entries: seq<CodecEntry>, c: Codec)
    requires NegotiableCaps(caps) && c in codecs && !c.IsRtx()
    requires MapCodecs(h264, codecs, caps).Ok? && PtFunctional(MapCodecs(h264, codecs, caps).value)
    requires Lists(entries, MapCodecs(h264, codecs, caps).value)
    ensures FirstMatch(h264, c.ToMatch(), caps).Some?
    ensures ConsumableCodec(c, caps, entries) == Some(BlockFor(h264, c.ToMatch(), caps))
  {
    var m := MapCodecs(h264, codecs, caps).value;
    MapCodecsExact(h264, codecs, caps);
    assert MapsTo(h264, codecs, caps, c, m[c]);
    LookupListed(entries, m, c);
    DistinctPtsUnique(caps, FirstMatch(h264, c.ToMatch(), caps).value);
  }

  lemma DistinctPtsFunctional(h264: H264, codecs: seq<Codec>, caps: seq<Codec>)
    requires NegotiableCaps(caps) && DistinctPts(codecs) && MapCodecs(h264, codecs, caps).Ok?
    ensures PtFunctional(MapCodecs(h264, codecs, caps).value)
  {
    MapCodecsExact(h264, codecs, caps);
  }

  /** The consumable parameters of a mapped producer always exist. If its payload types are distinct, they are the
      sequence of blocks: each video codec is directly followed by the RTX codec whose `apt` names it. */
  lemma ConsumableSound(h264: H264, kind: MediaKind, params: RtpParameters, caps: RouterCaps, mapping: RtpMapping)
    requires NegotiableCaps(caps.codecs)
    requires MapCodecs(h264, params.codecs, caps.codecs).Ok?
    requires Lists(mapping.codecs, MapCodecs(h264, params.codecs, caps.codecs).value)
    ensures ConsumableParameters(kind, params, caps, mapping).Some?
    ensures var p := ConsumableParameters(kind, params, caps, mapping).value;
            && p.mid == None && p.rtcp.cname == params.rtcp.cname && p.rtcp.reducedSize && p.rtcp.mux == Some(true)
    ensures DistinctPts(params.codecs) ==>
              var codecs := ConsumableParameters(kind, params, caps, mapping).value.codecs;
              codecs == Blocks(h264, Keys(params.codecs), caps.codecs) && Linked(codecs)
  {
    MappedIntoCaps(h264, params.codecs, caps.codecs);
    ConsumableTotal(params.codecs, MapCodecs(h264, params.codecs, caps.codecs).value, caps.codecs, mapping.codecs);
    if DistinctPts(params.codecs) {
      DistinctPtsFunctional(h264, params.codecs, caps.codecs);
      ConsumableIsBlocks(h264, params.codecs, caps.codecs, mapping.codecs);
      KeysAreMedia(params.codecs);
      BlocksLinked(h264, Keys(params.codecs), caps.codecs);
    }
  }

  lemma {:induction false} ConsumableTotal(codecs: seq<Codec>, m: CapPts, caps: seq<Codec>, entries: seq<CodecEntry>)
    requires forall c :: c in codecs ==> c in m
    requires forall c :: c in m ==> FirstByPt(caps, m[c]).Some?
    requires Lists(entries, m)
    ensures ConsumableCodecs(codecs, caps, entries).Some?
  {
    if codecs != [] {
      assert Last(codecs) in codecs;
      ConsumableTotal(Init(codecs), m, caps, entries);
      var c := EntryListed(entries, m, Last(codecs));
    }
  }

  /** The first entry for the payload type of a listed codec is that of some codec of the map. */
  lemma EntryListed(entries: seq<CodecEntry>, m: CapPts, c: Codec) returns (d: Codec)
    requires Lists(entries, m) && c in m
    ensures d in m && FirstEntry(entries, c.pt) == Some(m[d])
  {
    var order :| Enumerates(order, m) && entries == EntriesOf(order, m);
    var i :| 0 <= i < |order| && order[i] == c;
    var j := FirstEntryAt(entries, c.pt, i);
    d := order[j];
  }

  lemma {:induction false} FirstEntryAt(entries: seq<CodecEntry>, pt: u8, i: nat) returns (j: nat)
    requires i < |entries| && entries[i].pt == pt
    ensures j < |entries| && FirstEntry(entries, pt) == Some(entries[j].mappedPt)
    ensures entries[j].pt == pt && forall k :: 0 <= k < j ==> entries[k].pt != pt
  {
    if entries[0].pt == pt {
      j := 0;
    } else {
      j := FirstEntryAt(entries[1..], pt, i - 1);
      assert forall k :: 0 < k <= j + 1 ==> entries[k] == entries[1..][k - 1];
      j := j + 1;
    }
  }

  /** Every codec is mapped to the payload type of some codec of the router. */
  lemma MappedIntoCaps(h264: H264, codecs: seq<Codec>, caps: seq<Codec>)
    requires NegotiableCaps(caps) && MapCodecs(h264, codecs, caps).Ok?
    ensures var m := MapCodecs(h264, codecs, caps).value;
            (forall c :: c in codecs ==> c in m) && forall c :: c in m ==> FirstByPt(caps, m[c]).Some?
  {
    MapCodecsExact(h264, codecs, caps);
    var m := MapCodecs(h264, codecs, caps).value;
    forall c | c in m
      ensures FirstByPt(caps, m[c]).Some?
    {
      MapsIntoCaps(h264, codecs, caps, c, m[c]);
    }
  }

  lemma MapsIntoCaps(h264: H264, codecs: seq<Codec>, caps: seq<Codec>, c: Codec, pt: u8)
    requires MapsTo(h264, codecs, caps, c, pt)
    ensures FirstByPt(caps, pt).Some?
  {
  }

  lemma {:induction false} KeysAreMedia(codecs: seq<Codec>)
    ensures forall k :: k in Keys(codecs) ==> !k.mime.IsRtx()
  {
    if codecs != [] {
      KeysAreMedia(Init(codecs));
    }
  }

  /** Every encoding of the producer appears once, in order, under consecutive SSRCs and with its own settings. */
  lemma EncodingsExact(encodings: seq<Encoding>, ssrc: nat)
    ensures ConsumableEncodings(encodings, MapEncodings(encodings, ssrc)) ==
            seq(|encodings|, i requires 0 <= i < |encodings| =>
              Encoding(Some(ssrc + i), None, None, None, encodings[i].settings))
  {
    var made := ConsumableEncodings(encodings, MapEncodings(encodings, ssrc));
    forall i | 0 <= i < |encodings|
      ensures made[i] == Encoding(Some(ssrc + i), None, None, None, encodings[i].settings)
    {
      assert MapEncodings(encodings, ssrc)[i].mappedSsrc == ssrc + i;
    }
  }

  /** Of the right kind, and the router may send it. */
  function Sendable(kind: MediaKind): HeaderExtension -> bool {
    (x: HeaderExtension) => x.kind == kind && (x.direction == SendRecv || x.direction == SendOnly)
  }

  /** The extensions are those of the right kind that the router may send, in their order. */
  lemma {:induction false} ExtensionsExact(kind: MediaKind, extensions: seq<HeaderExtension>)
    ensures var sent, made := Filter(extensions, Sendable(kind)), ConsumableExtensions(kind, extensions);
            |made| == |sent| && forall i :: 0 <= i < |sent| ==>
              made[i] == ExtensionParameters(sent[i].uri, sent[i].preferredId, sent[i].preferredEncrypt)
  {
    if extensions != [] {
      ExtensionsExact(kind, Init(extensions));
    }
  }

  ghost predicate Linked(codecs: seq<Codec>) {
    forall i :: 0 <= i < |codecs| ==> LinkedAt(codecs, i)
  }

  lemma {:induction false} BlocksLinked(h264: H264, keys: seq<CodecToMatch>, caps: seq<Codec>)
    requires NegotiableCaps(caps)
    requires forall k :: k in keys ==> !k.mime.IsRtx()
    ensures Linked(Blocks(h264, keys, caps))
  {
    if keys != [] {
      assert Last(keys) in keys;
      BlocksLinked(h264, Init(keys), caps);
      BlockLinked(h264, Last(keys), caps);
      LinkedConcat(Blocks(h264, Init(keys), caps), BlockFor(h264, Last(keys), caps));
    }
  }

  lemma BlockLinked(h264: H264, key: CodecToMatch, caps: seq<Codec>)
    requires NegotiableCaps(caps) && !key.mime.IsRtx()
    ensures Linked(BlockFor(h264, key, caps))
  {
    var block := BlockFor(h264, key, caps);
    if block != [] {
      var cap := FirstMatch(h264, key, caps).value;
      RtxOfVideo(caps, cap);
      assert LinkedAt(block, 0);
      if |block| == 2 {
        assert LinkedAt(block, 1);
      }
    }
  }

  /** A router has an RTX codec for exactly its video codecs. */
  lemma RtxOfVideo(caps: seq<Codec>, cap: Codec)
    requires NegotiableCaps(caps) && cap in caps && !cap.IsRtx()
    ensures FirstRtxFor(caps, cap.pt).Some? <==> cap.mime.Kind() == Video
    ensures FirstRtxFor(caps, cap.pt).Some? ==> FirstRtxFor(caps, cap.pt).value.mime == VideoRtx
  {
    var i :| 0 <= i < |caps| && caps[i] == cap;
    assert LinkedAt(caps, i);
    if cap.mime.Kind() == Video {
      assert LinkedAt(caps, i + 1);
      assert caps[i + 1] in caps;
    }
    forall j | 0 <= j < |caps| && caps[j].IsRtx() && caps[j].Apt() == Some(cap.pt)
      ensures cap.mime.Kind() == Video && caps[j].mime == VideoRtx
    {
      assert LinkedAt(caps, j);
    }
  }

  lemma LinkedConcat(a: seq<Codec>, b: seq<Codec>)
    requires Linked(a) && Linked(b)
    ensures Linked(a + b)
  {
    forall i | 0 <= i < |a + b|
      ensures LinkedAt(a + b, i)
    {
      if i < |a| {
        assert LinkedAt(a, i);
      } else {
        assert LinkedAt(b, i - |a|);
      }
    }
  }
}
