/** Router capabilities: payload types are allocated to the media codecs of a router and one RTX
    codec is added to every video codec. */
module RouterCapabilities {
  import opened Common
  import opened Rtp

  const DYNAMIC_PAYLOAD_TYPES: seq<u8> := [
    100, 101, 102, 103, 104, 105, 106, 107, 108, 109, 110, 111, 112, 113, 114, 115, 116, 117, 118,
    119, 120, 121, 122, 123, 124, 125, 126, 127, 96, 97, 98, 99]

  datatype CapsError = UnsupportedCodec(mime: MimeType) | CannotAllocate | InvalidApt | DuplicatedPt(pt: u8)

  /** The codecs made so far and the dynamic payload types still available. */
  datatype Allocation = Allocation(codecs: seq<Codec>, dynamic: seq<u8>)

  /** Facts about the table of supported codecs: no RTX entry, and no preferred payload type is a dynamic one. */
  ghost predicate SupportedTable(supported: seq<CodecCapability>, dynamic: seq<u8>) {
    forall s :: s in supported ==>
                  && !s.mime.IsRtx()
                  && (s.preferredPt.Some? ==> s.preferredPt.value !in dynamic)
  }

  function FirstSupported(h264: H264, media: CodecToMatch, supported: seq<CodecCapability>)
    : (r: Option<CodecCapability>)
    ensures r.Some? ==> r.value in supported && Matches(h264, media, r.value.ToMatch(), false)
    ensures r.None? ==> forall s :: s in supported ==> !Matches(h264, media, s.ToMatch(), false)
  {
    if supported == [] then None
    else if Matches(h264, media, supported[0].ToMatch(), false) then Some(supported[0])
    else FirstSupported(h264, media, supported[1..])
  }

  function Differs(pt: u8): u8 -> bool { x => x != pt }

  /** The payload type of a media codec, with the dynamic types that remain after it is taken. */
  function ChoosePt(dynamic: seq<u8>, given: Option<u8>, table: Option<u8>): Result<(u8, seq<u8>), CapsError> {
    if given.Some? then Ok((given.value, Filter(dynamic, Differs(given.value))))
    else if table.Some? then Ok((table.value, dynamic))
    else if dynamic == [] then Err(CannotAllocate)
    else Ok((dynamic[0], dynamic[1..]))
  }

  function MediaCodec(entry: CodecCapability, pt: u8, given: Params): Codec {
    Codec(entry.mime, pt, entry.clockRate, entry.channels, entry.params + given, entry.feedback)
  }

  function RtxCodec(media: Codec, pt: u8): Codec {
    Codec(VideoRtx, pt, media.clockRate, None, map["apt" := Num(media.pt)], [])
  }

  function AddCodec(h264: H264, supported: seq<CodecCapability>, a: Allocation, media: CodecCapability)
    : Result<Allocation, CapsError>
  {
    if !ValidApt(media.params) then Err(InvalidApt) else
    var entry := FirstSupported(h264, media.ToMatch(), supported);
    if entry.None? then Err(UnsupportedCodec(media.mime)) else
    var (pt, dynamic) :- ChoosePt(a.dynamic, media.preferredPt, entry.value.preferredPt);
    if FirstByPt(a.codecs, pt).Some? then Err(DuplicatedPt(pt)) else
    var codec := MediaCodec(entry.value, pt, media.params);
    if codec.mime.Kind() == Audio then Ok(Allocation(a.codecs + [codec], dynamic))
    else if dynamic == [] then Err(CannotAllocate)
    else Ok(Allocation(a.codecs + [codec, RtxCodec(codec, dynamic[0])], dynamic[1..]))
  }

  /** Allocation for a list of media codecs, starting from the given dynamic payload types. */
  function Allocate(h264: H264, supported: seq<CodecCapability>, dynamic: seq<u8>, media: seq<CodecCapability>)
    : Result<Allocation, CapsError>
  {
    if media == [] then Ok(Allocation([], dynamic)) else
    var a :- Allocate(h264, supported, dynamic, Init(media));
    AddCodec(h264, supported, a, Last(media))
  }

  method GenerateRouterRtpCapabilities(h264: H264, supported: RemoteCaps, media: seq<CodecCapability>)
    returns (r: Result<RouterCaps, CapsError>)
    ensures var spec := Allocate(h264, supported.codecs, DYNAMIC_PAYLOAD_TYPES, media);
            if spec.Ok? then r == Ok(RouterCaps(spec.value.codecs, supported.headerExtensions))
            else r == Err(spec.error)
    ensures r.Ok? && SupportedTable(supported.codecs, DYNAMIC_PAYLOAD_TYPES) ==>
              && NegotiableCaps(r.value.codecs) && PlainRtx(r.value.codecs)
              && Realizes(h264, supported.codecs, DYNAMIC_PAYLOAD_TYPES, r.value.codecs, media)
  {
    DynamicPayloadTypesDistinct();
    if Allocate(h264, supported.codecs, DYNAMIC_PAYLOAD_TYPES, media).Ok?
       && SupportedTable(supported.codecs, DYNAMIC_PAYLOAD_TYPES) {
      AllocateSound(h264, supported.codecs, DYNAMIC_PAYLOAD_TYPES, media);
    }
    var codecs := AllocateCodecs(h264, supported.codecs, DYNAMIC_PAYLOAD_TYPES, media);
    r := if codecs.Ok? then Ok(RouterCaps(codecs.value, supported.headerExtensions)) else Err(codecs.error);
  }

  method AllocateCodecs(h264: H264, supported: seq<CodecCapability>, available: seq<u8>, media: seq<CodecCapability>)
    returns (r: Result<seq<Codec>, CapsError>)
    ensures var spec := Allocate(h264, supported, available, media);
            if spec.Ok? then r == Ok(spec.value.codecs) else r == Err(spec.error)
  {
    var a := Allocation([], available);
    for i := 0 to |media|
      invariant Allocate(h264, supported, available, media[..i]) == Ok(a)
    {
      PrefixStep(media, i);
      AllocateErrSticks(h264, supported, available, media, i + 1);
      var next := AddMediaCodec(h264, supported, a, media[i]);
      if next.Err? {
        return Err(next.error);
      }
      a := next.value;
    }
    assert media[..|media|] == media;
    r := Ok(a.codecs);
  }

  method AddMediaCodec(h264: H264, supported: seq<CodecCapability>, a: Allocation, given: CodecCapability)
    returns (r: Result<Allocation, CapsError>)
    ensures r == AddCodec(h264, supported, a, given)
  {
    var codecs, dynamic := a.codecs, a.dynamic;
    if !ValidApt(given.params) {
      return Err(InvalidApt);
    }
    var entry := FirstSupported(h264, given.ToMatch(), supported);
    if entry.None? {
      return Err(UnsupportedCodec(given.mime));
    }
    var pt: u8;
    if given.preferredPt.Some? {
      pt := given.preferredPt.value;
      dynamic := Filter(dynamic, Differs(pt));
    } else if entry.value.preferredPt.Some? {
      pt := entry.value.preferredPt.value;
    } else {
      if dynamic == [] {
        return Err(CannotAllocate);
      }
      pt := dynamic[0];
      dynamic := dynamic[1..];
    }
    for j := 0 to |codecs|
      invariant forall k :: 0 <= k < j ==> codecs[k].pt != pt
    {
      if codecs[j].pt == pt {
        return Err(DuplicatedPt(pt));
      }
    }
    var codec := MediaCodec(entry.value, pt, given.params);
    codecs := codecs + [codec];
    if codec.mime.Kind() == Video {
      if dynamic == [] {
        return Err(CannotAllocate);
      }
      var rtx := RtxCodec(codec, dynamic[0]);
      assert codecs + [rtx] == a.codecs + [codec, rtx];
      codecs := codecs + [rtx];
      dynamic := dynamic[1..];
    }
    r := Ok(Allocation(codecs, dynamic));
  }

  lemma {:induction false} AllocateErrSticks(h264: H264, supported: seq<CodecCapability>, dynamic: seq<u8>,
                                             media: seq<CodecCapability>, n: nat)
    requires n <= |media|
    ensures Allocate(h264, supported, dynamic, media[..n]).Err? ==>
              Allocate(h264, supported, dynamic, media) == Allocate(h264, supported, dynamic, media[..n])
    decreases |media|
  {
    if n == |media| {
      assert media[..n] == media;
    } else {
      assert Init(media)[..n] == media[..n];
      AllocateErrSticks(h264, supported, dynamic, Init(media), n);
    }
  }

  lemma DynamicPayloadTypesDistinct()
    ensures NoDuplicates(DYNAMIC_PAYLOAD_TYPES)
  {
    assert forall i :: 0 <= i < 32 ==> DYNAMIC_PAYLOAD_TYPES[i] == if i < 28 then 100 + i else 68 + i;
  }

  // ----- what every accepted list of media codecs satisfies -----

  function Unused(codecs: seq<Codec>): u8 -> bool {
    pt => FirstByPt(codecs, pt).None?
  }

  /** The dynamic payload types that no codec uses, in their original order. */
  ghost function Remaining(dynamic: seq<u8>, codecs: seq<Codec>): seq<u8> {
    Filter(dynamic, Unused(codecs))
  }

  /** A video codec is directly followed by an RTX codec; an RTX codec directly follows the video codec it names. */
  ghost predicate LinkedAt(codecs: seq<Codec>, i: nat)
    requires i < |codecs|
  {
    if codecs[i].IsRtx() then
      && i > 0
      && codecs[i].mime == VideoRtx
      && codecs[i - 1].mime.Kind() == Video && !codecs[i - 1].IsRtx()
      && codecs[i].Apt() == Some(codecs[i - 1].pt)
    else
      codecs[i].mime.Kind() == Video ==> i + 1 < |codecs| && codecs[i + 1].IsRtx()
  }

  ghost predicate NegotiableCaps(codecs: seq<Codec>) {
    && DistinctPts(codecs)
    && forall i :: 0 <= i < |codecs| ==> LinkedAt(codecs, i)
  }

  function NotRtx(): Codec -> bool { (c: Codec) => !c.IsRtx() }

  /** A codec that stands for the given media codec: the first supported codec that matches, with the given
      parameters on top of its own, and the payload type that was asked for or else the one of the table. */
  ghost predicate StandsFor(h264: H264, supported: seq<CodecCapability>, dynamic: seq<u8>, codec: Codec,
                            given: CodecCapability)
  {
    exists i :: FirstInTable(h264, given, supported, i) && Made(codec, supported[i], dynamic, given)
  }

  /** The entry at `i` is the first of the table that the given codec agrees with, profiles aside. */
  ghost predicate FirstInTable(h264: H264, given: CodecCapability, supported: seq<CodecCapability>, i: int) {
    && 0 <= i < |supported| && Agree(h264, LookCap(given), LookCap(supported[i]), false)
    && forall k :: 0 <= k < i ==> !Agree(h264, LookCap(given), LookCap(supported[k]), false)
  }

  /** The codec has the entry's feedback, the given parameters, and those of the entry that were not given. */
  ghost predicate Made(codec: Codec, entry: CodecCapability, dynamic: seq<u8>, given: CodecCapability) {
    && codec.mime == given.mime && codec.clockRate == given.clockRate && codec.channels == given.channels
    && codec.feedback == entry.feedback
    && (forall key :: key in given.params ==> key in codec.params && codec.params[key] == given.params[key])
    && (forall key :: key !in given.params ==> SameParam(codec.params, entry.params, key))
    && if given.preferredPt.Some? then codec.pt == given.preferredPt.value
       else if entry.preferredPt.Some? then codec.pt == entry.preferredPt.value
       else codec.pt in dynamic
  }

  lemma {:induction false} FirstSupportedIsFirst(h264: H264, given: CodecCapability, supported: seq<CodecCapability>)
    ensures var r := FirstSupported(h264, given.ToMatch(), supported);
            && (r.None? <==> forall i :: 0 <= i < |supported| ==>
                  !Agree(h264, LookCap(given), LookCap(supported[i]), false))
            && (r.Some? ==> exists i :: FirstInTable(h264, given, supported, i) && supported[i] == r.value)
  {
    if supported != [] {
      MatchesExactly(h264, given.ToMatch(), supported[0].ToMatch(), false);
      if Matches(h264, given.ToMatch(), supported[0].ToMatch(), false) {
        assert FirstInTable(h264, given, supported, 0);
      } else {
        var others := supported[1..];
        FirstSupportedIsFirst(h264, given, others);
        assert forall i :: 0 < i < |supported| ==> supported[i] == others[i - 1];
        if FirstSupported(h264, given.ToMatch(), others).Some? {
          var i :| && FirstInTable(h264, given, others, i)
                   && others[i] == FirstSupported(h264, given.ToMatch(), others).value;
          assert forall k :: 0 < k < i + 1 ==> supported[k] == others[k - 1];
          assert FirstInTable(h264, given, supported, i + 1);
        }
      }
    }
  }

  /** Every RTX codec has the clock rate of the codec before it, names that one, and has nothing else. */
  ghost predicate PlainRtx(codecs: seq<Codec>) {
    forall i :: 0 <= i < |codecs| && codecs[i].IsRtx() ==> PlainRtxAt(codecs, i)
  }

  ghost predicate PlainRtxAt(codecs: seq<Codec>, i: nat)
    requires i < |codecs|
  {
    && i > 0 && codecs[i].mime == VideoRtx && codecs[i].clockRate == codecs[i - 1].clockRate
    && codecs[i].channels == None && codecs[i].feedback == []
    && codecs[i].params.Keys == {"apt"} && codecs[i].params["apt"] == Num(codecs[i - 1].pt)
  }

  /** The media codecs of a router stand for the given ones, one each and in order. */
  ghost predicate Realizes(h264: H264, supported: seq<CodecCapability>, dynamic: seq<u8>, codecs: seq<Codec>,
                           media: seq<CodecCapability>) {
    var made := Filter(codecs, NotRtx());
    && |made| == |media|
    && forall i :: 0 <= i < |media| ==> StandsFor(h264, supported, dynamic, made[i], media[i])
  }

  /** Payload types are all distinct although those of RTX codecs are never checked, what remains is the
      original list minus the used types in order, and video and RTX codecs are in one-to-one correspondence. */
  lemma {:induction false} AllocateSound(h264: H264, supported: seq<CodecCapability>, dynamic: seq<u8>,
                                         media: seq<CodecCapability>)
    requires NoDuplicates(dynamic) && SupportedTable(supported, dynamic)
    requires Allocate(h264, supported, dynamic, media).Ok?
    ensures var a := Allocate(h264, supported, dynamic, media).value;
            && NegotiableCaps(a.codecs) && PlainRtx(a.codecs) && a.dynamic == Remaining(dynamic, a.codecs)
            && Realizes(h264, supported, dynamic, a.codecs, media)
  {
    if media == [] {
      FilterAll(dynamic, Unused([]));
    } else {
      AllocateSound(h264, supported, dynamic, Init(media));
      var a := Allocate(h264, supported, dynamic, Init(media)).value;
      AddCodecSound(h264, supported, dynamic, a, Init(media), Last(media));
      assert media == Init(media) + [Last(media)];
    }
  }

  lemma AddCodecSound(h264: H264, supported: seq<CodecCapability>, dynamic: seq<u8>, a: Allocation,
                      done: seq<CodecCapability>, given: CodecCapability)
    requires NoDuplicates(dynamic) && SupportedTable(supported, dynamic)
    requires NegotiableCaps(a.codecs) && PlainRtx(a.codecs) && a.dynamic == Remaining(dynamic, a.codecs)
    requires Realizes(h264, supported, dynamic, a.codecs, done)
    requires AddCodec(h264, supported, a, given).Ok?
    ensures var b := AddCodec(h264, supported, a, given).value;
            && NegotiableCaps(b.codecs) && PlainRtx(b.codecs) && b.dynamic == Remaining(dynamic, b.codecs)
            && Realizes(h264, supported, dynamic, b.codecs, done + [given])
  {
    var entry := FirstSupported(h264, given.ToMatch(), supported).value;
    var (pt, rest) := ChoosePt(a.dynamic, given.preferredPt, entry.preferredPt).value;
    var codec := MediaCodec(entry, pt, given.params);
    ChoosePtRemaining(dynamic, a.codecs, given.preferredPt, entry.preferredPt, codec);
    ChosenStandsFor(h264, supported, dynamic, a, given);
    RealizesNext(h264, supported, dynamic, a.codecs, codec, done, given);
    PlainAppend(a.codecs, codec);
    if codec.mime.Kind() == Video {
      VideoAdded(h264, supported, dynamic, a.codecs, codec, rest[0], done + [given]);
    } else {
      AppendAudio(a.codecs, codec);
    }
  }

  /** The RTX codec of a video codec takes the first type that is left. */
  lemma VideoAdded(h264: H264, supported: seq<CodecCapability>, dynamic: seq<u8>, codecs: seq<Codec>, codec: Codec,
                   pt: u8, media: seq<CodecCapability>)
    requires NoDuplicates(dynamic) && NegotiableCaps(codecs) && FirstByPt(codecs, codec.pt).None?
    requires codec.mime.Kind() == Video && !codec.IsRtx() && PlainRtx(codecs + [codec])
    requires Realizes(h264, supported, dynamic, codecs + [codec], media)
    requires Remaining(dynamic, codecs + [codec]) != [] && Remaining(dynamic, codecs + [codec])[0] == pt
    ensures var all := codecs + [codec, RtxCodec(codec, pt)];
            && NegotiableCaps(all) && PlainRtx(all)
            && Remaining(dynamic, codecs + [codec])[1..] == Remaining(dynamic, all)
            && Realizes(h264, supported, dynamic, all, media)
  {
    var rtx, before := RtxCodec(codec, pt), codecs + [codec];
    assert codecs + [codec, rtx] == before + [rtx];
    TakeFirst(dynamic, before, rtx);
    FilterMember(dynamic, Unused(before), rtx.pt);
    AppendVideo(codecs, codec, rtx);
    PlainAppendRtx(before, rtx);
    FilterConcat(before, [rtx], NotRtx());
    assert Filter([rtx], NotRtx()) == [];
    assert Filter(before, NotRtx()) + [] == Filter(before, NotRtx());
  }

  /** The codec that is made for a given one stands for it. */
  lemma ChosenStandsFor(h264: H264, supported: seq<CodecCapability>, dynamic: seq<u8>, a: Allocation,
                        given: CodecCapability)
    requires FirstSupported(h264, given.ToMatch(), supported).Some? && a.dynamic == Remaining(dynamic, a.codecs)
    requires var entry := FirstSupported(h264, given.ToMatch(), supported).value;
             ChoosePt(a.dynamic, given.preferredPt, entry.preferredPt).Ok?
    ensures var entry := FirstSupported(h264, given.ToMatch(), supported).value;
            var pt := ChoosePt(a.dynamic, given.preferredPt, entry.preferredPt).value.0;
            StandsFor(h264, supported, dynamic, MediaCodec(entry, pt, given.params), given)
  {
    var entry := FirstSupported(h264, given.ToMatch(), supported).value;
    var pt := ChoosePt(a.dynamic, given.preferredPt, entry.preferredPt).value.0;
    ChosenDynamic(dynamic, a.codecs, given.preferredPt, entry.preferredPt);
    FirstSupportedIsFirst(h264, given, supported);
    var i :| FirstInTable(h264, given, supported, i) && supported[i] == entry;
    assert Made(MediaCodec(entry, pt, given.params), supported[i], dynamic, given);
  }

  lemma PlainAppend(codecs: seq<Codec>, codec: Codec)
    requires PlainRtx(codecs) && !codec.IsRtx()
    ensures PlainRtx(codecs + [codec])
  {
    forall i | 0 <= i < |codecs| && codecs[i].IsRtx()
      ensures PlainRtxAt(codecs + [codec], i)
    {
      assert PlainRtxAt(codecs, i);
    }
  }

  lemma PlainAppendRtx(codecs: seq<Codec>, rtx: Codec)
    requires PlainRtx(codecs) && codecs != [] && rtx == RtxCodec(Last(codecs), rtx.pt)
    ensures PlainRtx(codecs + [rtx])
  {
    forall i | 0 <= i < |codecs| && codecs[i].IsRtx()
      ensures PlainRtxAt(codecs + [rtx], i)
    {
      assert PlainRtxAt(codecs, i);
    }
  }

  lemma AppendAudio(codecs: seq<Codec>, codec: Codec)
    requires NegotiableCaps(codecs) && FirstByPt(codecs, codec.pt).None?
    requires codec.mime.Kind() == Audio && !codec.IsRtx()
    ensures NegotiableCaps(codecs + [codec])
  {
    forall i | 0 <= i < |codecs|
      ensures LinkedAt(codecs + [codec], i)
    {
      assert LinkedAt(codecs, i);
    }
  }

  lemma AppendVideo(codecs: seq<Codec>, codec: Codec, rtx: Codec)
    requires NegotiableCaps(codecs) && FirstByPt(codecs, codec.pt).None?
    requires codec.mime.Kind() == Video && !codec.IsRtx()
    requires FirstByPt(codecs + [codec], rtx.pt).None? && rtx == RtxCodec(codec, rtx.pt)
    ensures NegotiableCaps(codecs + [codec, rtx])
  {
    assert codec in codecs + [codec];
    assert forall i :: 0 <= i < |codecs| ==> codecs[i] in codecs + [codec];
    forall i | 0 <= i < |codecs|
      ensures LinkedAt(codecs + [codec, rtx], i)
    {
      assert LinkedAt(codecs, i);
    }
  }

  lemma RealizesNext(h264: H264, supported: seq<CodecCapability>, dynamic: seq<u8>, codecs: seq<Codec>, codec: Codec,
                     done: seq<CodecCapability>, given: CodecCapability)
    requires Realizes(h264, supported, dynamic, codecs, done) && !codec.IsRtx()
    requires StandsFor(h264, supported, dynamic, codec, given)
    ensures Realizes(h264, supported, dynamic, codecs + [codec], done + [given])
  {
    FilterConcat(codecs, [codec], NotRtx());
  }

  lemma ChosenDynamic(dynamic: seq<u8>, codecs: seq<Codec>, given: Option<u8>, table: Option<u8>)
    requires ChoosePt(Remaining(dynamic, codecs), given, table).Ok?
    ensures given.None? && table.None? ==> ChoosePt(Remaining(dynamic, codecs), given, table).value.0 in dynamic
  {
    if given.None? && table.None? {
      FilterMember(dynamic, Unused(codecs), Remaining(dynamic, codecs)[0]);
    }
  }

  lemma ChoosePtRemaining(dynamic: seq<u8>, codecs: seq<Codec>, given: Option<u8>, table: Option<u8>, codec: Codec)
    requires NoDuplicates(dynamic) && (table.Some? ==> table.value !in dynamic)
    requires ChoosePt(Remaining(dynamic, codecs), given, table).Ok?
    requires ChoosePt(Remaining(dynamic, codecs), given, table).value.0 == codec.pt
    ensures ChoosePt(Remaining(dynamic, codecs), given, table).value.1 == Remaining(dynamic, codecs + [codec])
  {
    if given.Some? {
      RemainingAfter(dynamic, codecs, codec);
    } else if table.Some? {
      FirstByPtConcat(codecs, codec);
      FilterCongruence(dynamic, Unused(codecs), Unused(codecs + [codec]));
    } else {
      TakeFirst(dynamic, codecs, codec);
    }
  }

  lemma TakeFirst(dynamic: seq<u8>, codecs: seq<Codec>, codec: Codec)
    requires NoDuplicates(dynamic)
    requires Remaining(dynamic, codecs) != [] && Remaining(dynamic, codecs)[0] == codec.pt
    ensures codec.pt in Remaining(dynamic, codecs)
    ensures Remaining(dynamic, codecs)[1..] == Remaining(dynamic, codecs + [codec])
  {
    FilterNoDuplicates(dynamic, Unused(codecs));
    DropFirst(Remaining(dynamic, codecs));
    RemainingAfter(dynamic, codecs, codec);
  }

  lemma RemainingAfter(dynamic: seq<u8>, codecs: seq<Codec>, codec: Codec)
    ensures Filter(Remaining(dynamic, codecs), Differs(codec.pt)) == Remaining(dynamic, codecs + [codec])
  {
    FirstByPtConcat(codecs, codec);
    FilterTwice(dynamic, Unused(codecs), Differs(codec.pt), Unused(codecs + [codec]));
  }

  lemma FirstByPtConcat(codecs: seq<Codec>, codec: Codec)
    ensures forall pt: u8 :: FirstByPt(codecs + [codec], pt).None? <==> FirstByPt(codecs, pt).None? && pt != codec.pt
  {
    assert codec in codecs + [codec];
    assert forall c :: c in codecs ==> c in codecs + [codec];
  }

  lemma DropFirst(s: seq<u8>)
    requires NoDuplicates(s) && s != []
    ensures Filter(s, Differs(s[0])) == s[1..]
  {
    var pt, first, others := s[0], [s[0]], s[1..];
    assert s == first + others;
    assert Init(first) == [] && Filter(first, Differs(pt)) == [];
    FilterConcat(first, others, Differs(pt));
    forall i | 0 <= i < |others|
      ensures Differs(pt)(others[i])
    {
      assert others[i] == s[i + 1];
    }
    FilterAll(others, Differs(pt));
  }

  /** The Node version removes a given payload type by `indexOf` and `splice`; on a list without
      duplicates that is the `retain` of the Rust version. */
  method SpliceOut(dynamic: seq<u8>, pt: u8) returns (r: seq<u8>)
    requires NoDuplicates(dynamic)
    ensures r == Filter(dynamic, Differs(pt))
  {
    var i := 0;
    while i < |dynamic| && dynamic[i] != pt
      invariant 0 <= i <= |dynamic|
      invariant forall k :: 0 <= k < i ==> dynamic[k] != pt
    {
      i := i + 1;
    }
    if i == |dynamic| {
      FilterAll(dynamic, Differs(pt));
      return dynamic;
    }
    r := dynamic[..i] + dynamic[i + 1..];
    SpliceIsFilter(dynamic, i);
  }

  lemma SpliceIsFilter(s: seq<u8>, i: nat)
    requires NoDuplicates(s) && i < |s|
    ensures s[..i] + s[i + 1..] == Filter(s, Differs(s[i]))
  {
    var front, back := s[..i], s[i..];
    assert s == front + back && back[0] == s[i] && back[1..] == s[i + 1..];
    FilterConcat(front, back, Differs(s[i]));
    FilterAll(front, Differs(s[i]));
    DropFirst(back);
  }

  /** `pt` is the first dynamic payload type that no codec uses. */
  ghost predicate FirstUnused(dynamic: seq<u8>, used: seq<Codec>, pt: u8) {
    exists j :: 0 <= j < |dynamic| && dynamic[j] == pt && FirstByPt(used, pt).None?
                && forall i :: 0 <= i < j ==> FirstByPt(used, dynamic[i]).Some?
  }

  lemma {:induction false} FirstRemaining(dynamic: seq<u8>, used: seq<Codec>)
    requires Remaining(dynamic, used) != []
    ensures FirstUnused(dynamic, used, Remaining(dynamic, used)[0])
  {
    if Remaining(Init(dynamic), used) != [] {
      FirstRemaining(Init(dynamic), used);
      var pt := Remaining(Init(dynamic), used)[0];
      var j :| 0 <= j < |dynamic| - 1 && dynamic[j] == pt && FirstByPt(used, pt).None?
               && forall i :: 0 <= i < j ==> FirstByPt(used, Init(dynamic)[i]).Some?;
      assert forall i :: 0 <= i < j ==> dynamic[i] == Init(dynamic)[i];
    } else {
      var n := |dynamic| - 1;
      forall i | 0 <= i < n
        ensures FirstByPt(used, dynamic[i]).Some?
      {
        assert dynamic[i] in Init(dynamic);
        FilterMember(Init(dynamic), Unused(used), dynamic[i]);
      }
      assert Remaining(dynamic, used)[0] == dynamic[n];
    }
  }

  /** What a codec that is accepted adds: itself, under the type it is bound to get or else the first unused one; and if
      it is video, an RTX codec under the first type that is unused then. */
  lemma AddCodecTakes(h264: H264, supported: seq<CodecCapability>, dynamic: seq<u8>, a: Allocation,
                      given: CodecCapability)
    requires NoDuplicates(dynamic) && SupportedTable(supported, dynamic) && a.dynamic == Remaining(dynamic, a.codecs)
    requires AddCodec(h264, supported, a, given).Ok?
    ensures var entry := FirstSupported(h264, given.ToMatch(), supported).value;
            var codecs, n := AddCodec(h264, supported, a, given).value.codecs, |a.codecs|;
            && a.codecs < codecs && |codecs| == n + (if given.mime.Kind() == Video then 2 else 1)
            && (if Bound(given, entry).Some? then codecs[n].pt == Bound(given, entry).value
                else FirstUnused(dynamic, a.codecs, codecs[n].pt))
            && (given.mime.Kind() == Video ==>
                  codecs[n + 1].IsRtx() && FirstUnused(dynamic, codecs[..n + 1], codecs[n + 1].pt))
  {
    var entry := FirstSupported(h264, given.ToMatch(), supported).value;
    var (pt, rest) := ChoosePt(a.dynamic, given.preferredPt, entry.preferredPt).value;
    var codec := MediaCodec(entry, pt, given.params);
    ChoosePtRemaining(dynamic, a.codecs, given.preferredPt, entry.preferredPt, codec);
    if Bound(given, entry).None? {
      FirstRemaining(dynamic, a.codecs);
    }
    var codecs := AddCodec(h264, supported, a, given).value.codecs;
    assert codecs[..|a.codecs| + 1] == a.codecs + [codec];
    if given.mime.Kind() == Video {
      FirstRemaining(dynamic, a.codecs + [codec]);
    }
  }

  /** Every video codec has exactly one RTX codec: the one right after it. */
  lemma ExactlyOneRtx(codecs: seq<Codec>, i: nat, j: nat)
    requires NegotiableCaps(codecs)
    requires i < |codecs| && j < |codecs| && !codecs[i].IsRtx() && codecs[i].mime.Kind() == Video
    ensures codecs[j].IsRtx() && codecs[j].Apt() == Some(codecs[i].pt) <==> j == i + 1
  {
    assert LinkedAt(codecs, i) && LinkedAt(codecs, j) && LinkedAt(codecs, i + 1);
  }

  // ----- which lists are refused -----

  /** All dynamic payload types other than `last` are in use. */
  ghost predicate UsedUp(dynamic: seq<u8>, used: seq<Codec>, last: Option<u8>) {
    forall pt :: pt in dynamic ==> Some(pt) == last || FirstByPt(used, pt).Some?
  }

  /** The payload type that a codec is bound to get: the one asked for, or else the one of the table. */
  ghost function Bound(given: CodecCapability, entry: CodecCapability): Option<u8> {
    if given.preferredPt.Some? then given.preferredPt else entry.preferredPt
  }

  /** Why a codec cannot be added to the codecs in use: it has a bad `apt`; it matches no supported codec; the type it
      is bound to get is taken; or no dynamic type is left for it or for its RTX codec. */
  ghost predicate Refused(h264: H264, supported: seq<CodecCapability>, dynamic: seq<u8>, used: seq<Codec>,
                          given: CodecCapability, e: CapsError)
  {
    var entry := FirstSupported(h264, given.ToMatch(), supported);
    if e.InvalidApt? then !ValidApt(given.params) else
    && ValidApt(given.params)
    && match e
       case UnsupportedCodec(mime) => entry.None? && mime == given.mime
       case DuplicatedPt(pt) => entry.Some? && Bound(given, entry.value) == Some(pt) && FirstByPt(used, pt).Some?
       case CannotAllocate => entry.Some? && Exhausted(dynamic, used, given.mime.Kind(), Bound(given, entry.value))
       case InvalidApt => true
  }

  /** Too few dynamic types are left for a codec, whose own type may be bound, and for its RTX codec if it is video. */
  ghost predicate Exhausted(dynamic: seq<u8>, used: seq<Codec>, kind: MediaKind, bound: Option<u8>) {
    if bound.Some? then kind == Video && FirstByPt(used, bound.value).None? && UsedUp(dynamic, used, bound)
    else UsedUp(dynamic, used, None) || (kind == Video && exists last: u8 :: UsedUp(dynamic, used, Some(last)))
  }

  /** The codec at `n` is the first that cannot be added, and `e` says why. */
  ghost predicate RefusedAt(h264: H264, supported: seq<CodecCapability>, dynamic: seq<u8>, media: seq<CodecCapability>,
                            n: int, e: CapsError)
  {
    && 0 <= n < |media| && Allocate(h264, supported, dynamic, media[..n]).Ok?
    && Refused(h264, supported, dynamic, Allocate(h264, supported, dynamic, media[..n]).value.codecs, media[n], e)
  }

  /** A list is refused with an error exactly when that is called for at the first codec that cannot be added. */
  lemma AllocateRefusedExactly(h264: H264, supported: seq<CodecCapability>, dynamic: seq<u8>,
                               media: seq<CodecCapability>, e: CapsError)
    requires NoDuplicates(dynamic) && SupportedTable(supported, dynamic)
    ensures Allocate(h264, supported, dynamic, media) == Err(e) <==>
            exists n :: RefusedAt(h264, supported, dynamic, media, n, e)
  {
    if Allocate(h264, supported, dynamic, media) == Err(e) {
      var n := FirstRefused(h264, supported, dynamic, media);
    }
    if exists n :: RefusedAt(h264, supported, dynamic, media, n, e) {
      var n :| RefusedAt(h264, supported, dynamic, media, n, e);
      AllocateSound(h264, supported, dynamic, media[..n]);
      AddRefusedExactly(h264, supported, dynamic, Allocate(h264, supported, dynamic, media[..n]).value, media[n], e);
      PrefixStep(media, n);
      AllocateErrSticks(h264, supported, dynamic, media, n + 1);
    }
  }

  lemma {:induction false} FirstRefused(h264: H264, supported: seq<CodecCapability>, dynamic: seq<u8>,
                                        media: seq<CodecCapability>)
    returns (n: nat)
    requires NoDuplicates(dynamic) && SupportedTable(supported, dynamic)
    requires Allocate(h264, supported, dynamic, media).Err?
    ensures RefusedAt(h264, supported, dynamic, media, n, Allocate(h264, supported, dynamic, media).error)
    decreases |media|
  {
    if Allocate(h264, supported, dynamic, Init(media)).Err? {
      n := FirstRefused(h264, supported, dynamic, Init(media));
      assert Init(media)[..n] == media[..n];
    } else {
      n := |media| - 1;
      AllocateSound(h264, supported, dynamic, Init(media));
      var a := Allocate(h264, supported, dynamic, Init(media)).value;
      AddRefusedExactly(h264, supported, dynamic, a, Last(media), Allocate(h264, supported, dynamic, media).error);
    }
  }

  lemma AddRefusedExactly(h264: H264, supported: seq<CodecCapability>, dynamic: seq<u8>, a: Allocation,
                          given: CodecCapability, e: CapsError)
    requires NoDuplicates(dynamic) && SupportedTable(supported, dynamic) && a.dynamic == Remaining(dynamic, a.codecs)
    ensures AddCodec(h264, supported, a, given) == Err(e) <==> Refused(h264, supported, dynamic, a.codecs, given, e)
  {
    var entry := FirstSupported(h264, given.ToMatch(), supported);
    if ValidApt(given.params) && entry.Some? {
      RemainingEmpty(dynamic, a.codecs);
      var choice := ChoosePt(a.dynamic, given.preferredPt, entry.value.preferredPt);
      if choice.Ok? {
        ChoiceLeaves(dynamic, a.codecs, given, entry.value);
        if Bound(given, entry.value).None? {
          ChosenUnused(dynamic, a.codecs);
          var pt := choice.value.0;
          assert !UsedUp(dynamic, a.codecs, None);
          assert (exists last: u8 :: UsedUp(dynamic, a.codecs, Some(last))) <==> UsedUp(dynamic, a.codecs, Some(pt));
        }
      }
    }
  }

  /** Whether a dynamic type is left once a codec has been given its own. */
  lemma ChoiceLeaves(dynamic: seq<u8>, codecs: seq<Codec>, given: CodecCapability, entry: CodecCapability)
    requires NoDuplicates(dynamic) && (entry.preferredPt.Some? ==> entry.preferredPt.value !in dynamic)
    requires ChoosePt(Remaining(dynamic, codecs), given.preferredPt, entry.preferredPt).Ok?
    ensures var (pt, left) := ChoosePt(Remaining(dynamic, codecs), given.preferredPt, entry.preferredPt).value;
            left == [] <==> UsedUp(dynamic, codecs, Some(pt))
  {
    var choice := ChoosePt(Remaining(dynamic, codecs), given.preferredPt, entry.preferredPt);
    var codec := MediaCodec(entry, choice.value.0, given.params);
    ChoosePtRemaining(dynamic, codecs, given.preferredPt, entry.preferredPt, codec);
    LeftAfter(dynamic, codecs, codec);
  }

  /** A dynamic type that is still available is not in use, and is the last one if only one may be left. */
  lemma ChosenUnused(dynamic: seq<u8>, codecs: seq<Codec>)
    requires Remaining(dynamic, codecs) != []
    ensures var pt := Remaining(dynamic, codecs)[0];
            && pt in dynamic && FirstByPt(codecs, pt).None?
            && forall last :: UsedUp(dynamic, codecs, last) ==> last == Some(pt)
  {
    FilterMember(dynamic, Unused(codecs), Remaining(dynamic, codecs)[0]);
  }

  lemma RemainingEmpty(dynamic: seq<u8>, codecs: seq<Codec>)
    ensures Remaining(dynamic, codecs) == [] <==> UsedUp(dynamic, codecs, None)
  {
    forall pt | pt in dynamic
      ensures pt in Remaining(dynamic, codecs) <==> FirstByPt(codecs, pt).None?
    {
      FilterMember(dynamic, Unused(codecs), pt);
    }
    if Remaining(dynamic, codecs) != [] {
      ChosenUnused(dynamic, codecs);
    }
  }

  lemma LeftAfter(dynamic: seq<u8>, codecs: seq<Codec>, codec: Codec)
    ensures Remaining(dynamic, codecs + [codec]) == [] <==> UsedUp(dynamic, codecs, Some(codec.pt))
  {
    RemainingEmpty(dynamic, codecs + [codec]);
    FirstByPtConcat(codecs, codec);
  }
}
