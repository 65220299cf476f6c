/** The channel between the application and a worker: requests are numbered with wrapping ids, responses
    are correlated with pending requests, and closing rejects what is pending. */
module Channel {
  import opened Common
  import opened Framing

  const MAX_ID := 4294967295

  datatype Verdict = Accepted | TypeFailure | OtherFailure | Neither
  /** A parsed message; `id` is not zero, since a response with id 0 is not taken for a response. */
  datatype Message = Response(id: nat, verdict: Verdict) | Notification | Ignored

  /** How a promise was settled. */
  datatype Outcome = Resolved | RejectedTypeError | RejectedError | RejectedClosed

  /** A channel's request state. Requests are known by their serial number (the first call is 1): `sents` maps the
      ids in use to requests, `sent` holds all requests ever written to the socket, `outcomes` what their promises
      were settled with, and `attempts` counts the calls that try to settle a promise. */
  datatype Requests = Requests(closed: bool, nextId: nat, sents: map<nat, nat>,
                               calls: nat, sent: set<nat>, outcomes: map<nat, Outcome>, attempts: multiset<nat>)

  const INITIAL := Requests(false, 0, map[], 0, {}, map[], multiset{})

  function NextId(id: nat): nat { if id < MAX_ID then id + 1 else 1 }

  /** Settling a promise that is settled already has no effect on it. */
  function Settle(s: Requests, k: nat, o: Outcome): Requests {
    s.(outcomes := if k in s.outcomes then s.outcomes else s.outcomes[k := o], attempts := s.attempts + multiset{k})
  }

  /** `sendable` is false when the request is too big or the socket refuses it. */
  function OnRequest(s: Requests, sendable: bool): Requests {
    var t := s.(nextId := NextId(s.nextId), calls := s.calls + 1);
    if s.closed || !sendable then t
    else t.(sents := s.sents[t.nextId := t.calls], sent := s.sent + {t.calls})
  }

  function OnMessage(s: Requests, msg: Message): Requests {
    if !msg.Response? || msg.id == 0 || msg.id !in s.sents || msg.verdict.Neither? then s
    else Settle(s.(sents := s.sents - {msg.id}), s.sents[msg.id], OutcomeOf(msg.verdict))
  }

  function OutcomeOf(v: Verdict): Outcome
    requires !v.Neither?
  {
    if v.Accepted? then Resolved else if v.TypeFailure? then RejectedTypeError else RejectedError
  }

  /** Closing rejects every pending request but leaves it in `sents`. */
  function OnClose(s: Requests): Requests {
    if s.closed then s else
    RejectAll(s.(closed := true), s.sents.Values)
  }

  /** The promises of a set of requests are rejected, those excepted that are settled already. */
  function RejectAll(s: Requests, ks: set<nat>): Requests {
    s.(outcomes := (map k | k in ks :: RejectedClosed) + s.outcomes, attempts := s.attempts + multiset(ks))
  }

  lemma RejectNone(s: Requests, all: set<nat>)
    ensures RejectAll(s, all - all) == s
  {
    assert all - all == {};
    assert RejectAll(s, {}).outcomes == s.outcomes;
  }

  lemma RejectNext(s: Requests, all: set<nat>, todo: set<nat>, k: nat)
    requires k in todo && todo <= all
    ensures Settle(RejectAll(s, all - todo), k, RejectedClosed) == RejectAll(s, all - (todo - {k}))
  {
    var done, next := all - todo, all - (todo - {k});
    DoneNext(all, todo, k);
    RejectedNext(s.outcomes, done, next, k);
    CountedNext(s.attempts, done, next, k);
  }

  lemma DoneNext(all: set<nat>, todo: set<nat>, k: nat)
    requires k in todo && todo <= all
    ensures k !in all - todo && all - (todo - {k}) == (all - todo) + {k}
  {
  }

  lemma CountedNext(attempts: multiset<nat>, done: set<nat>, next: set<nat>, k: nat)
    requires k !in done && next == done + {k}
    ensures attempts + multiset(next) == attempts + multiset(done) + multiset{k}
  {
    assert multiset(next) == multiset(done) + multiset{k};
  }

  lemma RejectedNext(outcomes: map<nat, Outcome>, done: set<nat>, next: set<nat>, k: nat)
    requires next == done + {k}
    ensures var now := (map j | j in done :: RejectedClosed) + outcomes;
            var later := (map j | j in next :: RejectedClosed) + outcomes;
            later == if k in now then now else now[k := RejectedClosed]
  {
  }

  function OnMessages(s: Requests, payloads: seq<Bytes>, parse: Bytes -> Message): Requests
    decreases |payloads|
  {
    if payloads == [] then s else OnMessages(OnMessage(s, parse(payloads[0])), payloads[1..], parse)
  }

  lemma OnMessagesCons(s: Requests, payload: Bytes, others: seq<Bytes>, parse: Bytes -> Message)
    ensures OnMessages(s, [payload] + others, parse) == OnMessages(OnMessage(s, parse(payload)), others, parse)
  {
    assert ([payload] + others)[1..] == others;
  }

  lemma {:induction false} OnMessagesConcat(s: Requests, a: seq<Bytes>, b: seq<Bytes>, parse: Bytes -> Message)
    ensures OnMessages(s, a + b, parse) == OnMessages(OnMessages(s, a, parse), b, parse)
    decreases |a|
  {
    if a == [] {
      assert a + b == b;
    } else {
      assert (a + b)[1..] == a[1..] + b;
      OnMessagesConcat(OnMessage(s, parse(a[0])), a[1..], b, parse);
    }
  }

  class Channel {
    const littleEndian: bool
    const parse: Bytes -> Message
    var closed: bool
    var nextId: nat
    var sents: map<nat, nat>
    var recvBuffer: Bytes
    var calls: nat
    var sent: set<nat>
    var outcomes: map<nat, Outcome>
    var attempts: multiset<nat>

    function State(): Requests
      reads this
    {
      Requests(closed, nextId, sents, calls, sent, outcomes, attempts)
    }

    constructor (littleEndian: bool, parse: Bytes -> Message)
      ensures State() == INITIAL && recvBuffer == [] && this.littleEndian == littleEndian && this.parse == parse
    {
      this.littleEndian, this.parse := littleEndian, parse;
      closed, nextId, sents, recvBuffer := false, 0, map[], [];
      calls, sent, outcomes, attempts := 0, {}, map[], multiset{};
    }

    /** A chunk of data arrives: it is appended to the buffer and all whole messages are processed. */
    method Receive(chunk: Bytes)
      modifies this
      ensures var d := Framing.Receive(old(recvBuffer), chunk, Length(littleEndian));
              recvBuffer == d.rest && State() == OnMessages(old(State()), d.payloads, parse)
    {
      recvBuffer := if recvBuffer == [] then chunk else recvBuffer + chunk;
      assert recvBuffer == old(recvBuffer) + chunk;
      if |recvBuffer| > PAYLOAD_MAX_LEN {
        recvBuffer := [];
        return;
      }
      DecodeFromIsDecode(recvBuffer, 0, Length(littleEndian));
      assert recvBuffer[0..] == recvBuffer;
      var msgStart := ProcessMessages(Length(littleEndian));
      if msgStart != 0 {
        recvBuffer := recvBuffer[msgStart..];
      }
    }

    /** All data that arrives, chunk by chunk: whatever the chunks, the messages of an encoded stream that never
        overruns the buffer are processed once each and in order. */
    method ReceiveChunks(chunks: seq<Bytes>, ghost payloads: seq<Bytes>)
      modifies this
      ensures var d := ReceiveAll(old(recvBuffer), chunks, Length(littleEndian));
              recvBuffer == d.rest && State() == OnMessages(old(State()), d.payloads, parse)
      ensures old(recvBuffer) == [] && Framable(payloads) && Concat(chunks) == Encode(payloads, littleEndian)
              && Fits([], chunks, Length(littleEndian)) ==>
                recvBuffer == [] && State() == Run(old(State()), Received(payloads, parse))
    {
      ghost var before, whole := State(), ReceiveAll(recvBuffer, chunks, Length(littleEndian));
      ghost var arrived: seq<Bytes> := [];
      for i := 0 to |chunks|
        invariant var d := ReceiveAll(recvBuffer, chunks[i..], Length(littleEndian));
                  whole == Decoded(arrived + d.payloads, d.rest)
        invariant State() == OnMessages(before, arrived, parse)
      {
        ghost var d := Framing.Receive(recvBuffer, chunks[i], Length(littleEndian));
        ReceiveNext(recvBuffer, chunks, i, Length(littleEndian), arrived);
        OnMessagesConcat(before, arrived, d.payloads, parse);
        Receive(chunks[i]);
        arrived := arrived + d.payloads;
      }
      assert chunks[|chunks|..] == [] && arrived + [] == arrived;
      if old(recvBuffer) == [] && Framable(payloads) && Concat(chunks) == Encode(payloads, littleEndian) {
        MessagesSurvive(payloads, chunks, littleEndian);
        ReceivingIsRun(before, payloads, parse);
      }
    }

    /** The loop over the whole messages in the buffer; returns where the incomplete one starts. */
    method ProcessMessages(len: LengthOf) returns (msgStart: nat)
      modifies this
      ensures recvBuffer == old(recvBuffer) && msgStart <= |recvBuffer|
      ensures var d := DecodeFrom(recvBuffer, 0, len);
              recvBuffer[msgStart..] == d.rest && State() == OnMessages(old(State()), d.payloads, parse)
    {
      ghost var buffer, whole := recvBuffer, DecodeFrom(recvBuffer, 0, len);
      ghost var left, rest := whole.payloads, whole.rest;
      msgStart := 0;
      while true
        invariant msgStart <= |buffer| && recvBuffer == buffer
        invariant DecodeFrom(buffer, msgStart, len) == Decoded(left, rest)
        invariant OnMessages(State(), left, parse) == OnMessages(old(State()), whole.payloads, parse)
        decreases |buffer| - msgStart
      {
        var readLen := |recvBuffer| - msgStart;
        if readLen < 4 {
          break;
        }
        var msgLen := len(recvBuffer[msgStart..msgStart + 4]);
        if readLen < 4 + msgLen {
          break;
        }
        var payload := recvBuffer[msgStart + 4..msgStart + 4 + msgLen];
        FrameStep(buffer, msgStart, msgLen, len);
        msgStart := msgStart + 4 + msgLen;
        left := DecodeFrom(buffer, msgStart, len).payloads;
        OnMessagesCons(State(), payload, left, parse);
        ProcessMessage(parse(payload));
      }
      assert left == [];
    }

    method Request(sendable: bool) returns (id: nat)
      modifies this
      ensures State() == OnRequest(old(State()), sendable) && id == nextId && recvBuffer == old(recvBuffer)
    {
      nextId := if nextId < MAX_ID then nextId + 1 else 1;
      calls := calls + 1;
      id := nextId;
      if closed || !sendable {
        return;
      }
      sents := sents[id := calls];
      sent := sent + {calls};
    }

    method ProcessMessage(msg: Message)
      modifies this
      ensures State() == OnMessage(old(State()), msg) && recvBuffer == old(recvBuffer)
    {
      if msg.Response? && msg.id != 0 && msg.id in sents {
        var request := sents[msg.id];
        if !msg.verdict.Neither? {
          sents := sents - {msg.id};
          SettlePromise(request, OutcomeOf(msg.verdict));
        }
      }
    }

    method SettlePromise(k: nat, o: Outcome)
      modifies this`outcomes, this`attempts
      ensures State() == Settle(old(State()), k, o)
    {
      attempts := attempts + multiset{k};
      if k !in outcomes {
        outcomes := outcomes[k := o];
      }
    }

    method Close()
      modifies this
      ensures State() == OnClose(old(State())) && recvBuffer == old(recvBuffer)
    {
      if closed {
        return;
      }
      closed := true;
      var todo := sents.Values;
      ghost var start, all := State(), todo;
      RejectNone(start, all);
      while todo != {}
        invariant todo <= all && recvBuffer == old(recvBuffer)
        invariant State() == RejectAll(start, all - todo)
        decreases todo
      {
        var k :| k in todo;
        RejectNext(start, all, todo, k);
        SettlePromise(k, RejectedClosed);
        todo := todo - {k};
      }
      assert all - todo == all;
    }
  }

  // ----- every run -----

  datatype Event = Request(sendable: bool) | Receive(msg: Message) | Close

  function Step(s: Requests, e: Event): Requests {
    match e
    case Request(sendable) => OnRequest(s, sendable)
    case Receive(msg) => OnMessage(s, msg)
    case Close => OnClose(s)
  }

  function Run(s: Requests, events: seq<Event>): Requests {
    if events == [] then s else Step(Run(s, Init(events)), Last(events))
  }

  function Received(payloads: seq<Bytes>, parse: Bytes -> Message): (events: seq<Event>)
    ensures |events| == |payloads|
    ensures forall i :: 0 <= i < |payloads| ==> events[i] == Receive(parse(payloads[i]))
  {
    seq(|payloads|, i requires 0 <= i < |payloads| => Receive(parse(payloads[i])))
  }

  /** Receiving a chunk of data is a run: one step per whole message in it. */
  lemma {:induction false} ReceivingIsRun(s: Requests, payloads: seq<Bytes>, parse: Bytes -> Message)
    ensures OnMessages(s, payloads, parse) == Run(s, Received(payloads, parse))
    decreases |payloads|
  {
    if payloads != [] {
      var first := OnMessage(s, parse(payloads[0]));
      ReceivingIsRun(first, payloads[1..], parse);
      RunFrom(s, Receive(parse(payloads[0])), Received(payloads[1..], parse));
      assert Received(payloads, parse) == [Receive(parse(payloads[0]))] + Received(payloads[1..], parse);
    }
  }

  lemma {:induction false} RunFrom(s: Requests, e: Event, events: seq<Event>)
    ensures Run(s, [e] + events) == Run(Step(s, e), events)
  {
    if events == [] {
      assert Init([e]) == [] && [e] + events == [e];
    } else {
      assert Init([e] + events) == [e] + Init(events) && Last([e] + events) == Last(events);
      RunFrom(s, e, Init(events));
    }
  }

  /** The id of the k-th call. */
  function IdOf(k: nat): nat {
    if k == 0 then 0 else (k - 1) % MAX_ID + 1
  }

  lemma NextIdOf(k: nat)
    ensures NextId(IdOf(k)) == IdOf(k + 1) == k % 4294967295 + 1 && IdOf(0) == 0
  {
  }

  /** What every run keeps, whatever it does. */
  ghost predicate Inv(s: Requests) {
    && s.nextId == IdOf(s.calls)
    && (forall k :: k in s.sent ==> 1 <= k <= s.calls)
    && (forall k :: k in s.outcomes ==> k in s.sent)
    && (forall id :: id in s.sents ==> s.sents[id] in s.sent && IdOf(s.sents[id]) == id)
    && (forall id :: id in s.sents ==> (s.sents[id] in s.outcomes <==> s.closed))
    && (forall k :: s.attempts[k] > 0 ==> k in s.outcomes)
    && (forall id :: id in s.sents ==> s.attempts[s.sents[id]] <= 1)
    && (forall k :: s.attempts[k] <= if s.closed then 2 else 1)
  }

  /** Ids follow the formula, an id in use belongs to the request that it was made for, and no promise of an
      open channel is settled twice. */
  lemma {:induction false} RunInv(events: seq<Event>)
    ensures Inv(Run(INITIAL, events))
  {
    if events != [] {
      RunInv(Init(events));
      StepInv(Run(INITIAL, Init(events)), Last(events));
    }
  }

  lemma StepInv(s: Requests, e: Event)
    requires Inv(s)
    ensures Inv(Step(s, e))
  {
    match e
    case Request(sendable) => RequestInv(s, sendable);
    case Receive(msg) => MessageInv(s, msg);
    case Close => CloseInv(s);
  }

  lemma RequestInv(s: Requests, sendable: bool)
    requires Inv(s)
    ensures Inv(OnRequest(s, sendable))
  {
    NextIdOf(s.calls);
  }

  lemma MessageInv(s: Requests, msg: Message)
    requires Inv(s)
    ensures Inv(OnMessage(s, msg))
  {
  }

  lemma CloseInv(s: Requests)
    requires Inv(s)
    ensures Inv(OnClose(s))
  {
    if !s.closed {
      var t := OnClose(s);
      forall k
        ensures t.attempts[k] <= 1 && (t.attempts[k] > 0 ==> k in t.outcomes)
      {
        if k in s.sents.Values {
          var id :| id in s.sents && s.sents[id] == k;
        }
      }
      forall id | id in t.sents
        ensures t.sents[id] in t.outcomes
      {
        assert t.sents[id] in s.sents.Values;
      }
    }
  }

  /** Sent and not settled. */
  ghost predicate Pending(s: Requests, k: nat) {
    k in s.sent && k !in s.outcomes
  }

  /** Every pending request can still be reached under its id. */
  ghost predicate NoneLost(s: Requests) {
    forall k :: Pending(s, k) ==> IdOf(k) in s.sents && s.sents[IdOf(k)] == k
  }

  /** Fewer than 2^32 - 1 calls are made while a request is pending. */
  ghost predicate WithinWindow(s: Requests) {
    forall k :: Pending(s, k) ==> s.calls - k < MAX_ID
  }

  lemma {:induction false} WindowedRun(events: seq<Event>)
    requires forall n :: 0 <= n <= |events| ==> WithinWindow(Run(INITIAL, events[..n]))
    ensures NoneLost(Run(INITIAL, events))
  {
    if events != [] {
      var before := Init(events);
      forall n | 0 <= n <= |before|
        ensures WithinWindow(Run(INITIAL, before[..n]))
      {
        assert before[..n] == events[..n];
      }
      WindowedRun(before);
      assert events[..|events|] == events;
      RunInv(before);
      StepNoneLost(Run(INITIAL, before), Last(events));
    }
  }

  lemma StepNoneLost(s: Requests, e: Event)
    requires Inv(s) && NoneLost(s) && WithinWindow(Step(s, e))
    ensures NoneLost(Step(s, e))
  {
    match e
    case Request(sendable) => RequestNoneLost(s, sendable);
    case Receive(msg) =>
    case Close => CloseNoneLost(s);
  }

  lemma RequestNoneLost(s: Requests, sendable: bool)
    requires Inv(s) && NoneLost(s) && WithinWindow(OnRequest(s, sendable))
    ensures NoneLost(OnRequest(s, sendable))
  {
    RequestLosesExactly(s, sendable);
    var t := OnRequest(s, sendable);
    forall k | Pending(s, k)
      ensures (s.calls + 1 - k) % MAX_ID != 0
    {
      assert Pending(t, k);
      SameId(k, s.calls + 1);
    }
  }

  lemma CloseNoneLost(s: Requests)
    requires Inv(s) && NoneLost(s)
    ensures NoneLost(OnClose(s))
  {
    forall k | Pending(s, k) && !s.closed
      ensures !Pending(OnClose(s), k)
    {
      CloseRejectsPending(s, k);
    }
  }

  /** A request takes the id away from a pending one exactly when that was called a multiple of 2^32 - 1 calls ago. */
  lemma RequestLosesExactly(s: Requests, sendable: bool)
    requires Inv(s) && NoneLost(s)
    ensures NoneLost(OnRequest(s, sendable)) <==>
            s.closed || !sendable || forall k :: Pending(s, k) ==> (s.calls + 1 - k) % MAX_ID != 0
  {
    if !s.closed && sendable {
      var t, n := OnRequest(s, sendable), s.calls + 1;
      NextIdOf(s.calls);
      assert t.sents == s.sents[IdOf(n) := n];
      forall k | Pending(s, k)
        ensures Pending(t, k)
        ensures IdOf(k) in t.sents && t.sents[IdOf(k)] == k <==> (n - k) % MAX_ID != 0
      {
        SameId(k, n);
      }
      forall k | Pending(t, k) && !Pending(s, k)
        ensures IdOf(k) in t.sents && t.sents[IdOf(k)] == k
      {
        assert k == n;
      }
    }
  }

  lemma SameId(j: nat, k: nat)
    requires 1 <= j <= k
    ensures IdOf(j) == IdOf(k) <==> (k - j) % MAX_ID == 0
  {
  }

  /** A response settles the pending request that was given its id, and no other. */
  lemma ResponseSettlesItsRequest(s: Requests, msg: Message, k: nat)
    requires Inv(s) && NoneLost(s) && !s.closed && msg.Response?
    ensures var t := OnMessage(s, msg);
            && (Pending(s, k) && !Pending(t, k) <==> Pending(s, k) && IdOf(k) == msg.id && !msg.verdict.Neither?)
            && (Pending(s, k) && !Pending(t, k) && msg.verdict == Accepted ==> t.outcomes[k] == Resolved)
            && (Pending(s, k) && !Pending(t, k) && msg.verdict == TypeFailure ==> t.outcomes[k] == RejectedTypeError)
            && (Pending(s, k) && !Pending(t, k) && msg.verdict == OtherFailure ==> t.outcomes[k] == RejectedError)
            && (k in s.outcomes ==> k in t.outcomes && t.outcomes[k] == s.outcomes[k])
            && (k in t.outcomes ==> k in s.sent)
  {
  }

  /** Closing rejects every pending request, changes no other outcome, and leaves the records as they are. */
  lemma CloseRejectsPending(s: Requests, k: nat)
    requires Inv(s) && NoneLost(s) && !s.closed && k in s.sent
    ensures var t := OnClose(s);
            && k in t.outcomes && t.outcomes[k] == (if Pending(s, k) then RejectedClosed else s.outcomes[k])
            && t.closed && t.sents == s.sents && t.sent == s.sent && t.nextId == s.nextId && t.calls == s.calls
  {
    if Pending(s, k) {
      assert s.sents[IdOf(k)] in s.sents.Values;
    }
  }

  // ----- where outcomes come from -----

  ghost predicate RecordedAs(s: Requests, id: nat, k: nat) { id in s.sents && s.sents[id] == k }

  /** On an open channel a response with this verdict arrives under the id that the request is recorded with. */
  ghost predicate Answered(s: Requests, e: Event, k: nat, verdict: Verdict) {
    !s.closed && e.Receive? && e.msg.Response? && e.msg.verdict == verdict && RecordedAs(s, e.msg.id, k)
  }

  /** The event that gives the request this outcome. */
  ghost predicate SettledBy(s: Requests, e: Event, k: nat, o: Outcome) {
    match o
    case Resolved => Answered(s, e, k, Accepted)
    case RejectedTypeError => Answered(s, e, k, TypeFailure)
    case RejectedError => Answered(s, e, k, OtherFailure)
    case RejectedClosed => !s.closed && e.Close? && exists id :: RecordedAs(s, id, k)
  }

  ghost predicate Has(s: Requests, k: nat, o: Outcome) { k in s.outcomes && s.outcomes[k] == o }

  /** In every run, a request is resolved exactly if an accepting response with its id arrived while it was recorded on
      the open channel, rejected with an error exactly if such a response with that error did, and rejected as closed
      exactly if the channel was closed while it was recorded. */
  lemma {:induction false} OutcomeExactly(events: seq<Event>, k: nat, o: Outcome)
    ensures Has(Run(INITIAL, events), k, o) <==> exists n :: SettledAt(events, n, k, o)
  {
    if events != [] {
      var before, last := Init(events), |events| - 1;
      OutcomeExactly(before, k, o);
      RunInv(before);
      StepOutcome(Run(INITIAL, before), Last(events), k, o);
      assert events[..last] == before;
      assert SettledAt(events, last, k, o) <==> SettledBy(Run(INITIAL, before), Last(events), k, o);
      forall n
        ensures SettledAt(events, n, k, o) <==>
                SettledAt(before, n, k, o) || (n == last && SettledAt(events, last, k, o))
      {
        SettledBefore(events, n, k, o);
      }
    }
  }

  /** The n-th event gives the request its outcome. */
  ghost predicate SettledAt(events: seq<Event>, n: int, k: nat, o: Outcome) {
    0 <= n < |events| && SettledBy(Run(INITIAL, events[..n]), events[n], k, o)
  }

  lemma SettledBefore(events: seq<Event>, n: int, k: nat, o: Outcome)
    requires events != []
    ensures n != |events| - 1 ==> (SettledAt(events, n, k, o) <==> SettledAt(Init(events), n, k, o))
    ensures !SettledAt(Init(events), |events| - 1, k, o)
  {
    if 0 <= n < |events| - 1 {
      assert events[..n] == Init(events)[..n] && events[n] == Init(events)[n];
    }
  }

  lemma StepOutcome(s: Requests, e: Event, k: nat, o: Outcome)
    requires Inv(s)
    ensures Has(Step(s, e), k, o) <==> Has(s, k, o) || SettledBy(s, e, k, o)
  {
    match e
    case Request(_) =>
    case Receive(msg) => MessageOutcome(s, msg, k, o);
    case Close => CloseOutcome(s, k, o);
  }

  lemma MessageOutcome(s: Requests, msg: Message, k: nat, o: Outcome)
    requires Inv(s)
    ensures Has(OnMessage(s, msg), k, o) <==> Has(s, k, o) || SettledBy(s, Receive(msg), k, o)
  {
  }

  lemma CloseOutcome(s: Requests, k: nat, o: Outcome)
    requires Inv(s)
    ensures Has(OnClose(s), k, o) <==> Has(s, k, o) || SettledBy(s, Close, k, o)
  {
    if !s.closed {
      if id :| RecordedAs(s, id, k) {
        assert k in s.sents.Values;
      }
      if k in s.sents.Values {
        var id :| id in s.sents && s.sents[id] == k;
        assert RecordedAs(s, id, k);
      }
    }
  }

  /** An outcome never changes, whatever happens later. */
  lemma {:induction false} OutcomesStable(s: Requests, events: seq<Event>, k: nat)
    requires k in s.outcomes
    ensures k in Run(s, events).outcomes && Run(s, events).outcomes[k] == s.outcomes[k]
  {
    if events != [] {
      OutcomesStable(s, Init(events), k);
    }
  }

  /** A closed channel accepts no request, so nothing is pending from then on. */
  lemma {:induction false} ClosedStaysSettled(s: Requests, events: seq<Event>)
    requires s.closed && forall k :: !Pending(s, k)
    ensures Run(s, events).closed && forall k :: !Pending(Run(s, events), k)
  {
    if events != [] {
      ClosedStaysSettled(s, Init(events));
      assert forall k :: Pending(Run(s, events), k) ==> Pending(Run(s, Init(events)), k);
    }
  }
}
