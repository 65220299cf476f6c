/** Removing the RTX codecs that have no associated codec from a consumer's codec list, as written in Rust
    (collect the indices, then remove them) and in TypeScript (splice while walking backwards). */
module UselessRtx {
  import opened Common
  import opened Rtp

  /** In `codecs`, a codec is useful unless it is an RTX codec whose `apt` names no codec. */
  function UsefulIn(codecs: seq<Codec>): Codec -> bool {
    (c: Codec) => !c.IsRtx() || (c.Apt().Some? && FirstByPt(codecs, c.Apt().value).Some?)
  }

  /** The reference: one order-preserving filter. */
  function Sanitize(codecs: seq<Codec>): seq<Codec> {
    Filter(codecs, UsefulIn(codecs))
  }

  ghost predicate HasRtx(codecs: seq<Codec>) {
    exists c :: c in codecs && c.IsRtx()
  }

  method RemoveByIndices(codecs: seq<Codec>) returns (kept: seq<Codec>, rtxSupported: bool)
    ensures kept == Sanitize(codecs)
    ensures rtxSupported <==> HasRtx(kept)
  {
    var remove: seq<nat> := [];
    rtxSupported := false;
    var useful := UsefulIn(codecs);
    for i := 0 to |codecs|
      invariant Uselesses(codecs, useful, remove, i)
      invariant rtxSupported <==> exists k :: 0 <= k < i && codecs[k].IsRtx() && useful(codecs[k])
    {
      if codecs[i].IsRtx() {
        if useful(codecs[i]) {
          rtxSupported := true;
        } else {
          remove := remove + [i];
        }
      }
    }
    kept := RemoveAll(codecs, useful, remove);
    RtxKept(codecs, useful);
  }

  /** `indices` are the positions below `n` of the codecs to remove, in increasing order. */
  ghost predicate Uselesses(codecs: seq<Codec>, useful: Codec -> bool, indices: seq<nat>, n: nat) {
    && (forall j :: 0 <= j < |indices| ==> indices[j] < n && indices[j] < |codecs| && !useful(codecs[indices[j]]))
    && (forall j, k :: 0 <= j < k < |indices| ==> indices[j] < indices[k])
    && (forall i :: 0 <= i < n && i < |codecs| && !useful(codecs[i]) ==> i in indices)
  }

  method RemoveAll(codecs: seq<Codec>, useful: Codec -> bool, remove: seq<nat>) returns (kept: seq<Codec>)
    requires Uselesses(codecs, useful, remove, |codecs|)
    ensures kept == Filter(codecs, useful)
  {
    kept := codecs;
    var t := |remove|;
    ghost var cut := |codecs|;
    assert codecs[..cut] + Filter(codecs[cut..], useful) == codecs;
    while t > 0
      invariant 0 <= t <= |remove|
      invariant cut == if t < |remove| then remove[t] else |codecs|
      invariant kept == codecs[..cut] + Filter(codecs[cut..], useful)
    {
      t := t - 1;
      UsefulBetween(codecs, useful, remove, t, cut);
      RemoveOne(codecs, useful, remove[t], cut);
      kept := kept[..remove[t]] + kept[remove[t] + 1..];
      cut := remove[t];
    }
    UsefulBefore(codecs, useful, remove, cut);
    FilterSuffix(codecs, useful, cut);
  }

  lemma FilterSuffix(codecs: seq<Codec>, useful: Codec -> bool, cut: nat)
    requires cut <= |codecs| && forall i :: 0 <= i < cut ==> useful(codecs[i])
    ensures Filter(codecs, useful) == codecs[..cut] + Filter(codecs[cut..], useful)
  {
    var front, back := codecs[..cut], codecs[cut..];
    assert codecs == front + back;
    FilterAll(front, useful);
    FilterConcat(front, back, useful);
  }

  lemma UsefulBetween(codecs: seq<Codec>, useful: Codec -> bool, remove: seq<nat>, t: nat, cut: nat)
    requires Uselesses(codecs, useful, remove, |codecs|) && t < |remove|
    requires cut == if t + 1 < |remove| then remove[t + 1] else |codecs|
    ensures remove[t] < cut <= |codecs| && !useful(codecs[remove[t]])
    ensures forall i :: remove[t] < i < cut ==> useful(codecs[i])
  {
    forall i | remove[t] < i < cut
      ensures useful(codecs[i])
    {
      if !useful(codecs[i]) {
        var j :| 0 <= j < |remove| && remove[j] == i;
        assert false;
      }
    }
  }

  lemma UsefulBefore(codecs: seq<Codec>, useful: Codec -> bool, remove: seq<nat>, cut: nat)
    requires Uselesses(codecs, useful, remove, |codecs|)
    requires cut == if |remove| > 0 then remove[0] else |codecs|
    ensures cut <= |codecs| && forall i :: 0 <= i < cut ==> useful(codecs[i])
  {
  }

  lemma RemoveOne(codecs: seq<Codec>, useful: Codec -> bool, i: nat, cut: nat)
    requires i < cut <= |codecs| && !useful(codecs[i])
    requires forall k :: i < k < cut ==> useful(codecs[k])
    ensures var kept := codecs[..cut] + Filter(codecs[cut..], useful);
            kept[..i] + kept[i + 1..] == codecs[..i] + Filter(codecs[i..], useful)
  {
    var front, middle := codecs[..i], codecs[i + 1..cut];
    FilterPast(codecs, useful, i, cut);
    var rest := Filter(codecs[i..], useful);
    assert codecs[..cut] == front + [codecs[i]] + middle;
    assert codecs[..cut] + Filter(codecs[cut..], useful) == front + [codecs[i]] + rest;
    CutOut(front, codecs[i], rest);
  }

  lemma FilterPast(codecs: seq<Codec>, useful: Codec -> bool, i: nat, cut: nat)
    requires i < cut <= |codecs| && !useful(codecs[i])
    requires forall k :: i < k < cut ==> useful(codecs[k])
    ensures Filter(codecs[i..], useful) == codecs[i + 1..cut] + Filter(codecs[cut..], useful)
  {
    var middle, back := codecs[i + 1..cut], codecs[cut..];
    assert codecs[i + 1..] == middle + back;
    FilterAll(middle, useful);
    FilterConcat(middle, back, useful);
    FilterHead(codecs, useful, i);
    assert [] + Filter(middle + back, useful) == Filter(middle + back, useful);
  }

  lemma CutOut<T>(front: seq<T>, x: T, back: seq<T>)
    ensures var s := front + [x] + back; s[..|front|] + s[|front| + 1..] == front + back
  {
  }

  lemma RtxKept(codecs: seq<Codec>, useful: Codec -> bool)
    ensures HasRtx(Filter(codecs, useful)) <==>
            exists k :: 0 <= k < |codecs| && codecs[k].IsRtx() && useful(codecs[k])
  {
    if HasRtx(Filter(codecs, useful)) {
      var c :| c in Filter(codecs, useful) && c.IsRtx();
      FilterMember(codecs, useful, c);
    }
    forall k | 0 <= k < |codecs| && codecs[k].IsRtx() && useful(codecs[k])
      ensures HasRtx(Filter(codecs, useful))
    {
      FilterMember(codecs, useful, codecs[k]);
    }
  }

  // ----- the TypeScript version -----

  /** Whether the backward walk keeps the codec at `n` when `later` is what it kept after it. */
  predicate SpliceKeeps(codecs: seq<Codec>, n: nat, later: seq<Codec>)
    requires n < |codecs|
  {
    UsefulIn(codecs[..n + 1] + later)(codecs[n])
  }

  /** What the backward walk keeps of `codecs[n..]`: each codec is looked up in the list as spliced so far. */
  function Spliced(codecs: seq<Codec>, n: nat): seq<Codec>
    requires n <= |codecs|
    decreases |codecs| - n
  {
    if n == |codecs| then [] else
    var later := Spliced(codecs, n + 1);
    if SpliceKeeps(codecs, n, later) then [codecs[n]] + later else later
  }

  method SpliceBackwards(codecs: seq<Codec>) returns (kept: seq<Codec>, rtxSupported: bool)
    ensures kept == Spliced(codecs, 0)
    ensures rtxSupported <==> HasRtx(kept)
  {
    kept := codecs;
    rtxSupported := false;
    var idx := |codecs| - 1;
    ghost var later := [];
    while idx >= 0
      invariant -1 <= idx < |codecs|
      invariant later == Spliced(codecs, idx + 1)
      invariant kept == codecs[..idx + 1] + later
      invariant rtxSupported <==> HasRtx(later)
    {
      SpliceAt(codecs, idx, later);
      var codec := kept[idx];
      if codec.IsRtx() {
        var associated := if codec.Apt().Some? then FirstByPt(kept, codec.Apt().value) else None;
        if associated.Some? {
          rtxSupported := true;
        } else {
          kept := kept[..idx] + kept[idx + 1..];
        }
      }
      SplicedStep(codecs, idx, later);
      later := Spliced(codecs, idx);
      idx := idx - 1;
    }
  }

  lemma SpliceAt(codecs: seq<Codec>, n: nat, later: seq<Codec>)
    requires n < |codecs|
    ensures var kept := codecs[..n + 1] + later;
            && kept[n] == codecs[n] && kept == codecs[..n] + ([codecs[n]] + later)
            && kept[..n] + kept[n + 1..] == codecs[..n] + later
  {
  }

  lemma SplicedStep(codecs: seq<Codec>, n: nat, later: seq<Codec>)
    requires n < |codecs| && later == Spliced(codecs, n + 1)
    ensures Spliced(codecs, n) == (if SpliceKeeps(codecs, n, later) then [codecs[n]] else []) + later
    ensures HasRtx(Spliced(codecs, n)) <==> HasRtx(later) || (codecs[n].IsRtx() && SpliceKeeps(codecs, n, later))
  {
    if SpliceKeeps(codecs, n, later) {
      assert codecs[n] in Spliced(codecs, n);
      assert forall c :: c in later ==> c in Spliced(codecs, n);
    }
  }

  // ----- when the two agree -----

  /** The codec that an RTX codec names is found no later than itself, or is not itself removed. */
  ghost predicate AnchoredAt(codecs: seq<Codec>, i: nat)
    requires i < |codecs|
  {
    codecs[i].IsRtx() && UsefulIn(codecs)(codecs[i]) ==>
      exists j :: Anchors(codecs, i, j)
  }

  ghost predicate Anchors(codecs: seq<Codec>, i: nat, j: nat)
    requires i < |codecs|
  {
    j < |codecs| && Some(codecs[j].pt) == codecs[i].Apt() && (j <= i || UsefulIn(codecs)(codecs[j]))
  }

  ghost predicate Anchored(codecs: seq<Codec>) {
    forall i :: 0 <= i < |codecs| ==> AnchoredAt(codecs, i)
  }

  lemma SpliceKeepsUseful(codecs: seq<Codec>, n: nat, later: seq<Codec>)
    requires n < |codecs| && forall c :: c in later ==> c in codecs
    ensures SpliceKeeps(codecs, n, later) ==> UsefulIn(codecs)(codecs[n])
  {
  }

  lemma {:induction false} SplicedMembers(codecs: seq<Codec>, n: nat)
    requires n <= |codecs|
    ensures forall c :: c in Spliced(codecs, n) ==> c in codecs
    decreases |codecs| - n
  {
    if n < |codecs| {
      SplicedMembers(codecs, n + 1);
    }
  }

  lemma FilterHead(codecs: seq<Codec>, useful: Codec -> bool, n: nat)
    requires n < |codecs|
    ensures Filter(codecs[n..], useful) ==
            (if useful(codecs[n]) then [codecs[n]] else []) + Filter(codecs[n + 1..], useful)
  {
    assert codecs[n..] == [codecs[n]] + codecs[n + 1..];
    FilterConcat([codecs[n]], codecs[n + 1..], useful);
    assert Filter([codecs[n]], useful) == if useful(codecs[n]) then [codecs[n]] else [];
  }

  lemma {:induction false} SplicedShorter(codecs: seq<Codec>, n: nat)
    requires n <= |codecs|
    ensures |Spliced(codecs, n)| <= |Filter(codecs[n..], UsefulIn(codecs))|
    decreases |codecs| - n
  {
    if n < |codecs| {
      SplicedShorter(codecs, n + 1);
      SplicedMembers(codecs, n + 1);
      SpliceKeepsUseful(codecs, n, Spliced(codecs, n + 1));
      FilterHead(codecs, UsefulIn(codecs), n);
    }
  }

  lemma {:induction false} AnchoredAgree(codecs: seq<Codec>, n: nat)
    requires n <= |codecs| && Anchored(codecs)
    ensures Spliced(codecs, n) == Filter(codecs[n..], UsefulIn(codecs))
    decreases |codecs| - n
  {
    if n < |codecs| {
      AnchoredAgree(codecs, n + 1);
      var later := Spliced(codecs, n + 1);
      SplicedMembers(codecs, n + 1);
      SpliceKeepsUseful(codecs, n, later);
      FilterHead(codecs, UsefulIn(codecs), n);
      if codecs[n].IsRtx() && UsefulIn(codecs)(codecs[n]) {
        assert AnchoredAt(codecs, n);
        var j :| Anchors(codecs, n, j);
        FoundLater(codecs, n, j, later);
      }
    }
  }

  lemma FoundLater(codecs: seq<Codec>, n: nat, j: nat, later: seq<Codec>)
    requires n < |codecs| && Anchors(codecs, n, j)
    requires later == Filter(codecs[n + 1..], UsefulIn(codecs))
    ensures codecs[j] in codecs[..n + 1] + later
  {
    if j > n {
      assert codecs[n + 1..][j - n - 1] == codecs[j];
      FilterMember(codecs[n + 1..], UsefulIn(codecs), codecs[j]);
    }
  }

  lemma {:induction false} AgreeFrom(codecs: seq<Codec>, n: nat)
    requires n <= |codecs| && Spliced(codecs, 0) == Sanitize(codecs)
    ensures Spliced(codecs, n) == Filter(codecs[n..], UsefulIn(codecs))
  {
    if n == 0 {
      assert codecs[0..] == codecs;
    } else {
      AgreeFrom(codecs, n - 1);
      FilterHead(codecs, UsefulIn(codecs), n - 1);
      SplicedShorter(codecs, n);
      SplicedMembers(codecs, n);
      var later, filtered := Spliced(codecs, n), Filter(codecs[n..], UsefulIn(codecs));
      SpliceKeepsUseful(codecs, n - 1, later);
      SplicedStep(codecs, n - 1, later);
      var c := codecs[n - 1];
      assert ([c] + later)[1..] == later && ([c] + filtered)[1..] == filtered;
    }
  }

  lemma AgreeAnchors(codecs: seq<Codec>, i: nat)
    requires i < |codecs| && Spliced(codecs, 0) == Sanitize(codecs)
    ensures AnchoredAt(codecs, i)
  {
    if codecs[i].IsRtx() && UsefulIn(codecs)(codecs[i]) {
      AgreeFrom(codecs, i);
      AgreeFrom(codecs, i + 1);
      FilterHead(codecs, UsefulIn(codecs), i);
      var later := Spliced(codecs, i + 1);
      assert SpliceKeeps(codecs, i, later);
      var d := FirstByPt(codecs[..i + 1] + later, codecs[i].Apt().value).value;
      FilterMember(codecs[i + 1..], UsefulIn(codecs), d);
      var j :| 0 <= j < |codecs| && codecs[j] == d && (j <= i || d in later);
      assert Anchors(codecs, i, j);
    }
  }

  /** The two versions give the same list exactly when no kept RTX codec hangs on a later RTX codec that is removed. */
  lemma VersionsAgreeExactly(codecs: seq<Codec>)
    ensures Spliced(codecs, 0) == Sanitize(codecs) <==> Anchored(codecs)
  {
    if Anchored(codecs) {
      AnchoredAgree(codecs, 0);
      assert codecs[0..] == codecs;
    }
    if Spliced(codecs, 0) == Sanitize(codecs) {
      forall i | 0 <= i < |codecs|
        ensures AnchoredAt(codecs, i)
      {
        AgreeAnchors(codecs, i);
      }
    }
  }

  /** No `apt` names the payload type of an RTX codec. */
  ghost predicate NoRtxNamed(codecs: seq<Codec>) {
    forall c, d :: c in codecs && d in codecs && c.IsRtx() && c.Apt() == Some(d.pt) ==> !d.IsRtx()
  }

  /** Then the versions agree, and every RTX codec that is kept has its media codec in the result. */
  lemma NoRtxNamedAgree(codecs: seq<Codec>)
    requires NoRtxNamed(codecs)
    ensures Spliced(codecs, 0) == Sanitize(codecs)
    ensures forall c :: c in Sanitize(codecs) && c.IsRtx() ==>
              exists d :: d in Sanitize(codecs) && !d.IsRtx() && c.Apt() == Some(d.pt)
  {
    forall i | 0 <= i < |codecs|
      ensures AnchoredAt(codecs, i)
    {
      if codecs[i].IsRtx() && UsefulIn(codecs)(codecs[i]) {
        var d := FirstByPt(codecs, codecs[i].Apt().value).value;
        var j :| 0 <= j < |codecs| && codecs[j] == d;
        assert Anchors(codecs, i, j);
      }
    }
    VersionsAgreeExactly(codecs);
    forall c | c in Sanitize(codecs) && c.IsRtx()
      ensures exists d :: d in Sanitize(codecs) && !d.IsRtx() && c.Apt() == Some(d.pt)
    {
      FilterMember(codecs, UsefulIn(codecs), c);
      var d := FirstByPt(codecs, c.Apt().value).value;
      FilterMember(codecs, UsefulIn(codecs), d);
    }
  }

  /** The versions do differ: of two RTX codecs, the first names the second, which names none. Rust keeps the first,
      TypeScript does not; the list starts with a media codec, so that both make a consumer of what they keep. */
  lemma VersionsDiffer(media: Codec, a: Codec, b: Codec)
    requires !media.IsRtx() && a.IsRtx() && b.IsRtx() && DistinctPts([media, a, b])
    requires a.Apt() == Some(b.pt) && b.Apt().Some? && FirstByPt([media, a, b], b.Apt().value).None?
    ensures Sanitize([media, a, b]) == [media, a] && Spliced([media, a, b], 0) == [media]
  {
    var codecs := [media, a, b];
    assert codecs[0].pt != codecs[2].pt && codecs[1].pt != codecs[2].pt && b in codecs;
    assert FirstByPt([media, a], b.pt).None?;
    var useful := UsefulIn(codecs);
    assert useful(media) && useful(a) && !useful(b);
    FilterConcat([media, a], [b], useful);
    assert codecs == [media, a] + [b] && Filter([b], useful) == [];
    FilterAll([media, a], useful);
    assert codecs[..3] + [] == codecs && codecs[..2] + [] == [media, a] && codecs[..1] + [] == [media];
    assert Spliced(codecs, 3) == [] && Spliced(codecs, 2) == [] && Spliced(codecs, 1) == [];
  }

  /** There are such codecs. */
  lemma VersionsMayDiffer() returns (codecs: seq<Codec>)
    ensures codecs != [] && !codecs[0].IsRtx() && Spliced(codecs, 0) != Sanitize(codecs)
  {
    var media := Codec(Vp8, 96, 90000, None, map[], []);
    var a := Codec(VideoRtx, 97, 90000, None, map["apt" := Num(98)], []);
    var b := Codec(VideoRtx, 98, 90000, None, map["apt" := Num(5)], []);
    codecs := [media, a, b];
    VersionsDiffer(media, a, b);
  }
}
