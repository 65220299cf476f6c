/** The payload channel: a notification is a header frame followed by a payload frame. */
module PayloadChannel {
  import opened Common
  import opened Framing
  import Ch = Channel

  datatype Header = Header(targetId: string, event: string, data: string)

  /** What a frame is when it is parsed as a message. */
  datatype Parsed = Reply(msg: Ch.Message) | Notice(header: Header) | Unusable

  datatype Event = Event(header: Header, payload: Bytes)

  datatype Pairing = Pairing(ongoing: Option<Header>, emitted: seq<Event>, requests: Ch.Requests)

  type Parser = Bytes -> Parsed

  /** While a notification is open the next frame is its payload, whatever it looks like. */
  function OnData(s: Pairing, data: Bytes, parse: Parser): Pairing {
    if s.ongoing.Some? then s.(ongoing := None, emitted := s.emitted + [Event(s.ongoing.value, data)])
    else match parse(data)
      case Reply(msg) => s.(requests := Ch.OnMessage(s.requests, msg))
      case Notice(header) => s.(ongoing := Some(header))
      case Unusable => s
  }

  function OnFrames(s: Pairing, frames: seq<Bytes>, parse: Parser): Pairing
    decreases |frames|
  {
    if frames == [] then s else OnFrames(OnData(s, frames[0], parse), frames[1..], parse)
  }

  lemma OnFramesCons(s: Pairing, frame: Bytes, others: seq<Bytes>, parse: Parser)
    ensures OnFrames(s, [frame] + others, parse) == OnFrames(OnData(s, frame, parse), others, parse)
  {
    assert ([frame] + others)[1..] == others;
  }

  lemma {:induction false} OnFramesConcat(s: Pairing, a: seq<Bytes>, b: seq<Bytes>, parse: Parser)
    ensures OnFrames(s, a + b, parse) == OnFrames(OnFrames(s, a, parse), b, parse)
    decreases |a|
  {
    if a == [] {
      assert a + b == b;
    } else {
      assert (a + b)[1..] == a[1..] + b;
      OnFramesConcat(OnData(s, a[0], parse), a[1..], b, parse);
    }
  }

  class PayloadChannel {
    const littleEndian: bool
    const parse: Parser
    var recvBuffer: Bytes
    var ongoingNotification: Option<Header>
    var emitted: seq<Event>
    var requests: Ch.Requests

    function State(): Pairing
      reads this
    {
      Pairing(ongoingNotification, emitted, requests)
    }

    constructor (littleEndian: bool, parse: Parser)
      ensures State() == Pairing(None, [], Ch.INITIAL) && recvBuffer == []
      ensures this.littleEndian == littleEndian && this.parse == parse
    {
      this.littleEndian, this.parse, recvBuffer := littleEndian, parse, [];
      ongoingNotification, emitted, requests := None, [], Ch.INITIAL;
    }

    method Receive(chunk: Bytes)
      modifies this
      ensures var d := Framing.Receive(old(recvBuffer), chunk, Length(littleEndian));
              recvBuffer == d.rest && State() == OnFrames(old(State()), d.payloads, parse)
    {
      recvBuffer := if recvBuffer == [] then chunk else recvBuffer + chunk;
      assert recvBuffer == old(recvBuffer) + chunk;
      if |recvBuffer| > PAYLOAD_MAX_LEN {
        recvBuffer := [];
        return;
      }
      DecodeFromIsDecode(recvBuffer, 0, Length(littleEndian));
      assert recvBuffer[0..] == recvBuffer;
      var msgStart := ProcessFrames(Length(littleEndian));
      if msgStart != 0 {
        recvBuffer := recvBuffer[msgStart..];
      }
    }

    /** All data that arrives, chunk by chunk: whatever the chunks, an encoded stream of items that never overruns
        the buffer has its right effect exactly when no notification was open before it. */
    method ReceiveChunks(chunks: seq<Bytes>, ghost items: seq<Item>)
      modifies this
      ensures var d := ReceiveAll(old(recvBuffer), chunks, Length(littleEndian));
              recvBuffer == d.rest && State() == OnFrames(old(State()), d.payloads, parse)
      ensures old(recvBuffer) == [] && WellFormed(items, parse) && Carries(chunks, items, littleEndian) ==>
                && recvBuffer == []
                && (State() == AfterItems(old(State()), items, parse) <==> old(ongoingNotification).None?)
    {
      ghost var before, whole := State(), ReceiveAll(recvBuffer, chunks, Length(littleEndian));
      ghost var arrived: seq<Bytes> := [];
      for i := 0 to |chunks|
        invariant var d := ReceiveAll(recvBuffer, chunks[i..], Length(littleEndian));
                  whole == Decoded(arrived + d.payloads, d.rest)
        invariant State() == OnFrames(before, arrived, parse)
      {
        ghost var d := Framing.Receive(recvBuffer, chunks[i], Length(littleEndian));
        ReceiveNext(recvBuffer, chunks, i, Length(littleEndian), arrived);
        OnFramesConcat(before, arrived, d.payloads, parse);
        Receive(chunks[i]);
        arrived := arrived + d.payloads;
      }
      assert chunks[|chunks|..] == [] && arrived + [] == arrived;
      if old(recvBuffer) == [] && WellFormed(items, parse) && Carries(chunks, items, littleEndian) {
        StreamPaired(before, items, chunks, parse, littleEndian);
      }
    }

    /** The loop over the whole frames in the buffer; returns where the incomplete one starts. */
    method ProcessFrames(len: LengthOf) returns (msgStart: nat)
      modifies this
      ensures recvBuffer == old(recvBuffer) && msgStart <= |recvBuffer|
      ensures var d := DecodeFrom(recvBuffer, 0, len);
              recvBuffer[msgStart..] == d.rest && State() == OnFrames(old(State()), d.payloads, parse)
    {
      ghost var buffer, whole := recvBuffer, DecodeFrom(recvBuffer, 0, len);
      ghost var left, rest := whole.payloads, whole.rest;
      msgStart := 0;
      while true
        invariant msgStart <= |buffer| && recvBuffer == buffer
        invariant DecodeFrom(buffer, msgStart, len) == Decoded(left, rest)
        invariant OnFrames(State(), left, parse) == OnFrames(old(State()), whole.payloads, parse)
        decreases |buffer| - msgStart
      {
        var readLen := |recvBuffer| - msgStart;
        if readLen < 4 {
          break;
        }
        var msgLen := len(recvBuffer[msgStart..msgStart + 4]);
        if readLen < 4 + msgLen {
          break;
        }
        var payload := recvBuffer[msgStart + 4..msgStart + 4 + msgLen];
        FrameStep(buffer, msgStart, msgLen, len);
        msgStart := msgStart + 4 + msgLen;
        left := DecodeFrom(buffer, msgStart, len).payloads;
        OnFramesCons(State(), payload, left, parse);
        ProcessData(payload);
      }
      assert left == [];
    }

    method ProcessData(data: Bytes)
      modifies this
      ensures State() == OnData(old(State()), data, parse) && recvBuffer == old(recvBuffer)
    {
      if ongoingNotification.None? {
        match parse(data)
        case Reply(msg) => requests := Ch.OnMessage(requests, msg);
        case Notice(header) => ongoingNotification := Some(header);
        case Unusable =>
      } else {
        emitted := emitted + [Event(ongoingNotification.value, data)];
        ongoingNotification := None;
      }
    }
  }

  // ----- streams of items -----

  /** What a worker sends: a message in a single frame, or a notification in two. */
  datatype Item = Single(frame: Bytes) | Notification(header: Bytes, payload: Bytes)

  ghost predicate WellFormed(items: seq<Item>, parse: Parser) {
    forall i :: 0 <= i < |items| ==>
      match items[i]
      case Single(frame) => !parse(frame).Notice?
      case Notification(header, _) => parse(header).Notice?
  }

  function FramesOf(item: Item): seq<Bytes> {
    match item
    case Single(frame) => [frame]
    case Notification(header, payload) => [header, payload]
  }

  function Frames(items: seq<Item>): seq<Bytes> {
    if items == [] then [] else FramesOf(items[0]) + Frames(items[1..])
  }

  ghost function EventsOf(item: Item, parse: Parser): seq<Event> {
    if item.Notification? && parse(item.header).Notice? then [Event(parse(item.header).header, item.payload)] else []
  }

  /** The notifications of a stream, each with its own payload, in order. */
  ghost function Events(items: seq<Item>, parse: Parser): seq<Event> {
    if items == [] then [] else EventsOf(items[0], parse) + Events(items[1..], parse)
  }

  ghost function ReplyOf(s: Ch.Requests, item: Item, parse: Parser): Ch.Requests {
    if item.Single? && parse(item.frame).Reply? then Ch.OnMessage(s, parse(item.frame).msg) else s
  }

  /** What the messages of a stream do to pending requests. */
  ghost function Replies(s: Ch.Requests, items: seq<Item>, parse: Parser): Ch.Requests
    decreases |items|
  {
    if items == [] then s else Replies(ReplyOf(s, items[0], parse), items[1..], parse)
  }

  /** What a stream of items should do: each notification is emitted with its own payload and in order, payloads
      are never mistaken for responses, and no notification stays open. */
  ghost function AfterItems(s: Pairing, items: seq<Item>, parse: Parser): Pairing {
    Pairing(None, s.emitted + Events(items, parse), Replies(s.requests, items, parse))
  }

  /** A stream of items does what it should exactly when no notification is open before it. */
  lemma ItemsPaired(s: Pairing, items: seq<Item>, parse: Parser)
    requires WellFormed(items, parse)
    ensures OnFrames(s, Frames(items), parse) == AfterItems(s, items, parse) <==> s.ongoing.None?
  {
    if s.ongoing.None? {
      ClosedPaired(s, items, parse);
    } else {
      OpenMispairs(s, items, parse);
    }
  }

  lemma {:induction false} ClosedPaired(s: Pairing, items: seq<Item>, parse: Parser)
    requires s.ongoing.None? && WellFormed(items, parse)
    ensures OnFrames(s, Frames(items), parse) == AfterItems(s, items, parse)
    decreases |items|
  {
    if items == [] {
      assert s.emitted + [] == s.emitted;
    } else {
      var first := EventsOf(items[0], parse);
      ItemPaired(s, items[0], Frames(items[1..]), parse);
      var t := Pairing(None, s.emitted + first, ReplyOf(s.requests, items[0], parse));
      ClosedPaired(t, items[1..], parse);
      assert t.emitted + Events(items[1..], parse) == s.emitted + (first + Events(items[1..], parse));
    }
  }

  /** What has been emitted stays. */
  lemma {:induction false} EmittedGrows(s: Pairing, frames: seq<Bytes>, parse: Parser)
    ensures s.emitted <= OnFrames(s, frames, parse).emitted
    decreases |frames|
  {
    if frames != [] {
      EmittedGrows(OnData(s, frames[0], parse), frames[1..], parse);
    }
  }

  /** An open notification takes the first frame for its payload, and no later item makes up for it. */
  lemma {:induction false} OpenMispairs(s: Pairing, items: seq<Item>, parse: Parser)
    requires s.ongoing.Some? && WellFormed(items, parse)
    ensures OnFrames(s, Frames(items), parse) != AfterItems(s, items, parse)
    decreases |items|, 0
  {
    if items != [] {
      var item, others := items[0], items[1..];
      assert WellFormed(others, parse);
      match item {
        case Single(frame) =>
          var t := OnData(s, frame, parse);
          OnFramesCons(s, frame, Frames(others), parse);
          ClosedPaired(t, others, parse);
          assert |AfterItems(t, others, parse).emitted| == |AfterItems(s, items, parse).emitted| + 1;
        case Notification(header, payload) =>
          assert FramesOf(item) + Frames(others) == [header] + ([payload] + Frames(others));
          var t := OnData(OnData(s, header, parse), payload, parse);
          OnFramesCons(s, header, [payload] + Frames(others), parse);
          OnFramesCons(OnData(s, header, parse), payload, Frames(others), parse);
          HeaderMispairs(s, header, payload, others, parse);
      }
    }
  }

  /** The header of a notification has been taken for a payload. */
  lemma HeaderMispairs(s: Pairing, header: Bytes, payload: Bytes, others: seq<Item>, parse: Parser)
    requires s.ongoing.Some? && parse(header).Notice? && WellFormed(others, parse)
    ensures var t := OnData(OnData(s, header, parse), payload, parse);
            OnFrames(t, Frames(others), parse) != AfterItems(s, [Notification(header, payload)] + others, parse)
    decreases |others|, 1
  {
    var items := [Notification(header, payload)] + others;
    assert items[0] == Notification(header, payload) && items[1..] == others;
    var t := OnData(OnData(s, header, parse), payload, parse);
    var wrong, right := Event(s.ongoing.value, header), Event(parse(header).header, payload);
    EmittedGrows(t, Frames(others), parse);
    assert AfterItems(s, items, parse).emitted == s.emitted + ([right] + Events(others, parse));
    assert t.emitted[|s.emitted|] == wrong && AfterItems(s, items, parse).emitted[|s.emitted|] == right;
    if wrong == right {
      assert t.emitted + Events(others, parse) == s.emitted + ([right] + Events(others, parse));
      assert AfterItems(t, others, parse) == AfterItems(s, items, parse);
      OpenMispairs(t, others, parse);
    }
  }

  lemma ItemPaired(s: Pairing, item: Item, others: seq<Bytes>, parse: Parser)
    requires s.ongoing.None? && WellFormed([item], parse)
    ensures OnFrames(s, FramesOf(item) + others, parse) ==
            OnFrames(Pairing(None, s.emitted + EventsOf(item, parse), ReplyOf(s.requests, item, parse)), others, parse)
  {
    assert item == [item][0];
    match item {
      case Single(frame) =>
        OnFramesCons(s, frame, others, parse);
        assert s.emitted + [] == s.emitted;
      case Notification(header, payload) =>
        assert FramesOf(item) + others == [header] + ([payload] + others);
        OnFramesCons(s, header, [payload] + others, parse);
        OnFramesCons(OnData(s, header, parse), payload, others, parse);
    }
  }

  /** The chunks are an encoded stream of items that never overruns the buffer. */
  ghost predicate Carries(chunks: seq<Bytes>, items: seq<Item>, le: bool) {
    Framable(Frames(items)) && Concat(chunks) == Encode(Frames(items), le) && Fits([], chunks, Length(le))
  }

  /** The same under any chunking of the encoded stream that fits the buffer. */
  lemma StreamPaired(s: Pairing, items: seq<Item>, chunks: seq<Bytes>, parse: Parser, le: bool)
    requires WellFormed(items, parse) && Carries(chunks, items, le)
    ensures ReceiveAll([], chunks, Length(le)) == Decoded(Frames(items), [])
    ensures OnFrames(s, ReceiveAll([], chunks, Length(le)).payloads, parse) == AfterItems(s, items, parse) <==>
            s.ongoing.None?
  {
    MessagesSurvive(Frames(items), chunks, le);
    ItemsPaired(s, items, parse);
  }

  /** Discarding a full buffer does not drop an open notification. What arrives from then on has its right effect
      exactly when none was open. */
  lemma DiscardMispairs(s: Pairing, buffer: Bytes, chunk: Bytes, items: seq<Item>, chunks: seq<Bytes>, parse: Parser,
                        le: bool)
    requires |buffer + chunk| > PAYLOAD_MAX_LEN && WellFormed(items, parse) && Carries(chunks, items, le)
    ensures var d := ReceiveAll(buffer, [chunk] + chunks, Length(le));
            d.rest == [] && (OnFrames(s, d.payloads, parse) == AfterItems(s, items, parse) <==> s.ongoing.None?)
  {
    assert ([chunk] + chunks)[0] == chunk && ([chunk] + chunks)[1..] == chunks;
    assert Receive(buffer, chunk, Length(le)) == Decoded([], []);
    StreamPaired(s, items, chunks, parse, le);
    assert ReceiveAll(buffer, [chunk] + chunks, Length(le)).payloads == [] + Frames(items);
    assert [] + Frames(items) == Frames(items);
  }

  /** From a new channel: a header arrives, then more than the buffer takes, then a response. The response is
      emitted as the payload of the notification and settles nothing. */
  method OverrunOnNewChannel(header: Bytes, flood: Bytes, response: Bytes, parse: Parser, le: bool)
    returns (channel: PayloadChannel)
    requires parse(header).Notice? && parse(response).Reply? && |flood| > PAYLOAD_MAX_LEN
    requires 4 + |header| <= PAYLOAD_MAX_LEN && 4 + |response| <= PAYLOAD_MAX_LEN
    ensures channel.recvBuffer == []
    ensures channel.State() == Pairing(None, [Event(parse(header).header, response)], Ch.INITIAL)
  {
    channel := new PayloadChannel(le, parse);
    ReceiveFrame(header, le);
    channel.Receive(Frame(header, le));
    OnFramesCons(Pairing(None, [], Ch.INITIAL), header, [], parse);
    channel.Receive(flood);
    ReceiveFrame(response, le);
    OnFramesCons(channel.State(), response, [], parse);
    channel.Receive(Frame(response, le));
  }

  lemma ReceiveFrame(p: Bytes, le: bool)
    requires 4 + |p| <= PAYLOAD_MAX_LEN
    ensures Receive([], Frame(p, le), Length(le)) == Decoded([p] + [], [])
  {
    DecodeFrame(p, [], le);
    assert Frame(p, le) + [] == Frame(p, le) && [] + Frame(p, le) == Frame(p, le);
  }
}
