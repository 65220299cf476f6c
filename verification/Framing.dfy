/** Length-prefixed framing of the messages between a worker and its channels. */
module Framing {
  import opened Common

  const PAYLOAD_MAX_LEN := 4194304

  type Bytes = seq<u8>

  /** How a length is read from four bytes. */
  type LengthOf = Bytes -> nat

  function ReadLittleEndian(b: Bytes): nat {
    if |b| != 4 then 0 else
    var b0: int, b1: int, b2: int, b3: int := b[0], b[1], b[2], b[3];
    b0 + 0x100 * b1 + 0x1_0000 * b2 + 0x100_0000 * b3
  }

  function ReadBigEndian(b: Bytes): nat {
    if |b| != 4 then 0 else ReadLittleEndian([b[3], b[2], b[1], b[0]])
  }

  /** The host's byte order decides. */
  function Length(littleEndian: bool): LengthOf {
    if littleEndian then ReadLittleEndian else ReadBigEndian
  }

  /** The first byte is the lowest one on a little-endian host and the highest one on the others. */
  lemma ByteOrder(b: Bytes)
    requires |b| == 4
    ensures var b0: int, b1: int, b2: int, b3: int := b[0], b[1], b[2], b[3];
            && Length(true)(b) == ((b3 * 256 + b2) * 256 + b1) * 256 + b0
            && Length(false)(b) == ((b0 * 256 + b1) * 256 + b2) * 256 + b3
  {
  }

  function WriteLength(n: u32, littleEndian: bool): (b: Bytes)
    ensures |b| == 4 && Length(littleEndian)(b) == n
  {
    var b0, b1, b2, b3 := n % 0x100, n / 0x100 % 0x100, n / 0x1_0000 % 0x100, n / 0x100_0000;
    assert n / 0x1_0000 == n / 0x100 / 0x100 && n / 0x100_0000 == n / 0x1_0000 / 0x100;
    if littleEndian then [b0, b1, b2, b3] else [b3, b2, b1, b0]
  }

  function Frame(payload: Bytes, littleEndian: bool): Bytes
    requires |payload| < 0x1_0000_0000
  {
    WriteLength(|payload|, littleEndian) + payload
  }

  ghost predicate Framable(payloads: seq<Bytes>) {
    forall i :: 0 <= i < |payloads| ==> |payloads[i]| < 0x1_0000_0000
  }

  function Encode(payloads: seq<Bytes>, littleEndian: bool): Bytes
    requires Framable(payloads)
  {
    if payloads == [] then [] else Frame(payloads[0], littleEndian) + Encode(payloads[1..], littleEndian)
  }

  /** The buffer starts with a whole frame. */
  predicate Complete(b: Bytes, len: LengthOf) {
    |b| >= 4 && |b| >= 4 + len(b[..4])
  }

  /** The payloads of the whole frames at the start of a buffer, and what is left of it. */
  datatype Decoded = Decoded(payloads: seq<Bytes>, rest: Bytes)

  /** The pure decoder that the receive loops refine. */
  function Decode(b: Bytes, len: LengthOf): (d: Decoded)
    ensures !Complete(d.rest, len)
    decreases |b|
  {
    if !Complete(b, len) then Decoded([], b) else
    var end := 4 + len(b[..4]);
    var d := Decode(b[end..], len);
    Decoded([b[4..end]] + d.payloads, d.rest)
  }

  /** What arrives with one chunk: nothing at all, and an empty buffer, when too much data has piled up. */
  function Receive(buffer: Bytes, chunk: Bytes, len: LengthOf): Decoded {
    if |buffer + chunk| > PAYLOAD_MAX_LEN then Decoded([], []) else Decode(buffer + chunk, len)
  }

  /** What arrives with a sequence of chunks. */
  function ReceiveAll(buffer: Bytes, chunks: seq<Bytes>, len: LengthOf): Decoded
    decreases |chunks|
  {
    if chunks == [] then Decoded([], buffer) else
    var first := Receive(buffer, chunks[0], len);
    var others := ReceiveAll(first.rest, chunks[1..], len);
    Decoded(first.payloads + others.payloads, others.rest)
  }

  /** The buffer never passes its limit. */
  predicate Fits(buffer: Bytes, chunks: seq<Bytes>, len: LengthOf)
    decreases |chunks|
  {
    chunks != [] ==>
      |buffer + chunks[0]| <= PAYLOAD_MAX_LEN
      && Fits(Decode(buffer + chunks[0], len).rest, chunks[1..], len)
  }

  function Concat(chunks: seq<Bytes>): Bytes {
    if chunks == [] then [] else chunks[0] + Concat(chunks[1..])
  }

  lemma {:induction false} DecodeConcat(a: Bytes, b: Bytes, len: LengthOf)
    ensures var d := Decode(a, len);
            var e := Decode(d.rest + b, len);
            Decode(a + b, len) == Decoded(d.payloads + e.payloads, e.rest)
    decreases |a|
  {
    if Complete(a, len) {
      var end := 4 + len(a[..4]);
      CompletePrefix(a, b, len);
      DecodeConcat(a[end..], b, len);
      PrependPayload(a[4..end], Decode(a[end..], len).payloads, Decode(Decode(a, len).rest + b, len).payloads);
    } else {
      PrependPayload([], [], Decode(a + b, len).payloads);
    }
  }

  lemma CompletePrefix(a: Bytes, b: Bytes, len: LengthOf)
    requires Complete(a, len)
    ensures Complete(a + b, len) && (a + b)[..4] == a[..4]
    ensures var end := 4 + len(a[..4]); (a + b)[4..end] == a[4..end] && (a + b)[end..] == a[end..] + b
  {
    assert (a + b)[..4] == a[..4];
  }

  lemma PrependPayload(p: Bytes, others: seq<Bytes>, more: seq<Bytes>)
    ensures [p] + (others + more) == [p] + others + more && [] + more == more
  {
  }

  /** However the stream is cut into chunks, what is delivered is what decoding the whole stream gives, and the
      buffer keeps exactly its incomplete end, if and only if the buffer never passes its limit. */
  lemma ChunkingIrrelevant(buffer: Bytes, chunks: seq<Bytes>, len: LengthOf)
    requires !Complete(buffer, len)
    ensures ReceiveAll(buffer, chunks, len) == Decode(buffer + Concat(chunks), len) <==> Fits(buffer, chunks, len)
  {
    if Fits(buffer, chunks, len) {
      FittingDecoded(buffer, chunks, len);
    } else {
      OverrunLosesBytes(buffer, chunks, len);
      DecodeKeepsBytes(buffer + Concat(chunks), len);
    }
  }

  /** The bytes that a number of payloads took up in the stream. */
  function Taken(payloads: seq<Bytes>): nat {
    if payloads == [] then 0 else 4 + |payloads[0]| + Taken(payloads[1..])
  }

  lemma {:induction false} TakenConcat(a: seq<Bytes>, b: seq<Bytes>)
    ensures Taken(a + b) == Taken(a) + Taken(b)
  {
    if a == [] {
      assert a + b == b;
    } else {
      assert (a + b)[1..] == a[1..] + b;
      TakenConcat(a[1..], b);
    }
  }

  /** Decoding neither loses nor makes up a byte. */
  lemma {:induction false} DecodeKeepsBytes(b: Bytes, len: LengthOf)
    ensures Taken(Decode(b, len).payloads) + |Decode(b, len).rest| == |b|
    decreases |b|
  {
    if Complete(b, len) {
      var end := 4 + len(b[..4]);
      DecodeKeepsBytes(b[end..], len);
      assert Decode(b, len).payloads[1..] == Decode(b[end..], len).payloads;
    }
  }

  lemma {:induction false} OverrunLosesBytes(buffer: Bytes, chunks: seq<Bytes>, len: LengthOf)
    ensures var d := ReceiveAll(buffer, chunks, len);
            var all := |buffer| + |Concat(chunks)|;
            && Taken(d.payloads) + |d.rest| <= all
            && (!Fits(buffer, chunks, len) ==> Taken(d.payloads) + |d.rest| < all)
    decreases |chunks|
  {
    if chunks != [] {
      var first := Receive(buffer, chunks[0], len);
      DecodeKeepsBytes(buffer + chunks[0], len);
      OverrunLosesBytes(first.rest, chunks[1..], len);
      TakenConcat(first.payloads, ReceiveAll(first.rest, chunks[1..], len).payloads);
    }
  }

  lemma {:induction false} FittingDecoded(buffer: Bytes, chunks: seq<Bytes>, len: LengthOf)
    requires !Complete(buffer, len) && Fits(buffer, chunks, len)
    ensures ReceiveAll(buffer, chunks, len) == Decode(buffer + Concat(chunks), len)
    decreases |chunks|
  {
    if chunks == [] {
      assert buffer + Concat(chunks) == buffer;
    } else {
      var start, later := buffer + chunks[0], Concat(chunks[1..]);
      assert buffer + Concat(chunks) == start + later;
      FirstChunk(buffer, chunks, len);
      FittingDecoded(Decode(start, len).rest, chunks[1..], len);
      DecodeConcat(start, later, len);
    }
  }

  /** Receiving the next of a number of chunks. */
  lemma ReceiveNext(buffer: Bytes, chunks: seq<Bytes>, i: nat, len: LengthOf, arrived: seq<Bytes>)
    requires i < |chunks|
    ensures var first := Receive(buffer, chunks[i], len);
            var all, others := ReceiveAll(buffer, chunks[i..], len), ReceiveAll(first.rest, chunks[i + 1..], len);
            arrived + all.payloads == arrived + first.payloads + others.payloads && all.rest == others.rest
  {
    assert chunks[i..][0] == chunks[i] && chunks[i..][1..] == chunks[i + 1..];
  }

  lemma FirstChunk(buffer: Bytes, chunks: seq<Bytes>, len: LengthOf)
    requires chunks != [] && Fits(buffer, chunks, len)
    ensures var first := Decode(buffer + chunks[0], len);
            var others := ReceiveAll(first.rest, chunks[1..], len);
            Fits(first.rest, chunks[1..], len)
            && ReceiveAll(buffer, chunks, len) == Decoded(first.payloads + others.payloads, others.rest)
  {
  }

  /** Decoding undoes encoding. */
  lemma {:induction false} DecodeEncode(payloads: seq<Bytes>, littleEndian: bool)
    requires Framable(payloads)
    ensures Decode(Encode(payloads, littleEndian), Length(littleEndian)) == Decoded(payloads, [])
  {
    if payloads != [] {
      DecodeFrame(payloads[0], Encode(payloads[1..], littleEndian), littleEndian);
      DecodeEncode(payloads[1..], littleEndian);
      assert payloads == [payloads[0]] + payloads[1..];
    }
  }

  lemma DecodeFrame(p: Bytes, others: Bytes, littleEndian: bool)
    requires |p| < 0x1_0000_0000
    ensures var len := Length(littleEndian);
            Decode(Frame(p, littleEndian) + others, len) ==
            Decoded([p] + Decode(others, len).payloads, Decode(others, len).rest)
  {
    DecodeHeader(WriteLength(|p|, littleEndian), p, others, Length(littleEndian));
    assert Frame(p, littleEndian) + others == WriteLength(|p|, littleEndian) + p + others;
  }

  lemma DecodeHeader(header: Bytes, p: Bytes, others: Bytes, len: LengthOf)
    requires |header| == 4 && len(header) == |p|
    ensures Decode(header + p + others, len) == Decoded([p] + Decode(others, len).payloads, Decode(others, len).rest)
  {
    var b := header + p + others;
    assert b[..4] == header;
    assert b[4..4 + |p|] == p && b[4 + |p|..] == others;
  }

  /** Decoding a buffer from an offset, as the receive loops go through it. */
  function DecodeFrom(b: Bytes, start: nat, len: LengthOf): Decoded
    requires start <= |b|
    decreases |b| - start
  {
    if |b| - start < 4 || |b| - start < 4 + len(b[start..start + 4]) then Decoded([], b[start..]) else
    var end := start + 4 + len(b[start..start + 4]);
    var d := DecodeFrom(b, end, len);
    Decoded([b[start + 4..end]] + d.payloads, d.rest)
  }

  lemma {:induction false} DecodeFromIsDecode(b: Bytes, start: nat, len: LengthOf)
    requires start <= |b|
    ensures DecodeFrom(b, start, len) == Decode(b[start..], len)
    decreases |b| - start
  {
    var view := b[start..];
    if |view| >= 4 {
      assert b[start..start + 4] == view[..4];
      var n := len(view[..4]);
      if |view| >= 4 + n {
        DecodeFromIsDecode(b, start + 4 + n, len);
        assert view[4..4 + n] == b[start + 4..start + 4 + n] && view[4 + n..] == b[start + 4 + n..];
      }
    }
  }

  /** One turn of a receive loop. */
  lemma FrameStep(b: Bytes, start: nat, n: nat, len: LengthOf)
    requires start + 4 + n <= |b| && len(b[start..start + 4]) == n
    ensures DecodeFrom(b, start, len).payloads ==
            [b[start + 4..start + 4 + n]] + DecodeFrom(b, start + 4 + n, len).payloads
    ensures DecodeFrom(b, start, len).rest == DecodeFrom(b, start + 4 + n, len).rest
  {
  }

  /** Messages survive a chunking exactly when it never overruns the buffer. */
  lemma MessagesSurvive(payloads: seq<Bytes>, chunks: seq<Bytes>, littleEndian: bool)
    requires Framable(payloads) && Concat(chunks) == Encode(payloads, littleEndian)
    ensures ReceiveAll([], chunks, Length(littleEndian)) == Decoded(payloads, []) <==>
            Fits([], chunks, Length(littleEndian))
  {
    ChunkingIrrelevant([], chunks, Length(littleEndian));
    assert [] + Concat(chunks) == Concat(chunks);
    DecodeEncode(payloads, littleEndian);
  }

  // ----- the limit counts the length prefix -----

  /** The frames of all payloads are within a limit. */
  ghost predicate Within(payloads: seq<Bytes>, limit: nat) {
    forall i :: 0 <= i < |payloads| ==> 4 + |payloads[i]| <= limit
  }

  lemma {:induction false} DecodedBound(b: Bytes, len: LengthOf)
    ensures Within(Decode(b, len).payloads, |b|)
    decreases |b|
  {
    if Complete(b, len) {
      DecodedBound(b[4 + len(b[..4])..], len);
    }
  }

  /** In every run, also when data is discarded, a delivered payload and its length prefix fit the limit together. */
  lemma {:induction false} DeliveredBound(buffer: Bytes, chunks: seq<Bytes>, len: LengthOf)
    ensures Within(ReceiveAll(buffer, chunks, len).payloads, PAYLOAD_MAX_LEN)
    decreases |chunks|
  {
    if chunks != [] {
      var first := Receive(buffer, chunks[0], len);
      DecodedBound(buffer + chunks[0], len);
      assert Within(first.payloads, PAYLOAD_MAX_LEN);
      DeliveredBound(first.rest, chunks[1..], len);
    }
  }

  lemma {:induction false} ShortFits(buffer: Bytes, chunks: seq<Bytes>, len: LengthOf)
    requires |buffer| + |Concat(chunks)| <= PAYLOAD_MAX_LEN
    ensures Fits(buffer, chunks, len)
    decreases |chunks|
  {
    if chunks != [] {
      RestShorter(buffer + chunks[0], len);
      ShortFits(Decode(buffer + chunks[0], len).rest, chunks[1..], len);
    }
  }

  lemma {:induction false} RestShorter(b: Bytes, len: LengthOf)
    ensures |Decode(b, len).rest| <= |b|
    decreases |b|
  {
    if Complete(b, len) {
      RestShorter(b[4 + len(b[..4])..], len);
    }
  }

  /** A message sent on its own is delivered exactly when its frame, and not just its payload, is within the
      payload limit: the payloads of the last four sizes up to `PAYLOAD_MAX_LEN` are lost. */
  lemma DeliveredExactly(payload: Bytes, chunks: seq<Bytes>, littleEndian: bool)
    requires |payload| < 0x1_0000_0000 && Concat(chunks) == Frame(payload, littleEndian)
    ensures payload in ReceiveAll([], chunks, Length(littleEndian)).payloads <==> 4 + |payload| <= 4194304
  {
    if 4 + |payload| <= PAYLOAD_MAX_LEN {
      ShortFits([], chunks, Length(littleEndian));
      assert Encode([payload], littleEndian) == Frame(payload, littleEndian) + [];
      assert Frame(payload, littleEndian) + [] == Frame(payload, littleEndian);
      MessagesSurvive([payload], chunks, littleEndian);
    } else {
      DeliveredBound([], chunks, Length(littleEndian));
    }
  }
}
