/** The SCTP stream ids that a transport gives to its data consumers. */
module StreamIds {
  import opened Common

  type ConsumerId = nat

  datatype StreamError = MissingMis | NoStreamIdAvailable

  /** `marks` is the buffer of used ids, allocated on first use. `held` gives the id of every data consumer that is
      pending or open, `open` those that are open, and `lost` the ids that stay marked without a holder: a
      failed request never gives its id back, nor does a data consumer that is closed with its transport. */
  datatype Streams = Streams(mis: Option<nat>, marks: Option<seq<bool>>, cursor: nat,
                             held: map<ConsumerId, nat>, open: set<ConsumerId>, lost: set<nat>)

  /** The id tried at the given turn of the circular scan. */
  function Turn(cursor: nat, idx: nat, n: nat): nat
    requires n > 0
  {
    (cursor + idx) % n
  }

  /** The first unmarked id that the scan meets from the given turn on. */
  function FirstFree(marks: seq<bool>, cursor: nat, idx: nat): (r: Option<nat>)
    ensures r.Some? ==> r.value < |marks| && !marks[r.value]
    decreases |marks| - idx
  {
    if idx >= |marks| then None
    else if !marks[Turn(cursor, idx, |marks|)] then Some(Turn(cursor, idx, |marks|))
    else FirstFree(marks, cursor, idx + 1)
  }

  function Marks(s: Streams): seq<bool>
    requires s.mis.Some?
  {
    if s.marks.Some? then s.marks.value else seq(s.mis.value, _ => false)
  }

  function OnStart(s: Streams, dc: ConsumerId): (Streams, Result<nat, StreamError>) {
    if s.mis.None? then (s, Err(MissingMis)) else
    var marks := Marks(s);
    var id := FirstFree(marks, s.cursor, 0);
    if id.None? then (s.(marks := Some(marks)), Err(NoStreamIdAvailable))
    else (s.(marks := Some(marks[id.value := true]), cursor := id.value + 1, held := s.held[dc := id.value]),
          Ok(id.value))
  }

  function OnReply(s: Streams, dc: ConsumerId): Streams { s.(open := s.open + {dc}) }

  function OnFailure(s: Streams, dc: ConsumerId): Streams {
    if dc !in s.held then s else s.(held := s.held - {dc}, lost := s.lost + {s.held[dc]})
  }

  /** The application closes the data consumer, or its data producer is closed. */
  function OnClose(s: Streams, dc: ConsumerId): Streams {
    if dc !in s.held || s.marks.None? || s.held[dc] >= |s.marks.value| then s else
    s.(marks := Some(s.marks.value[s.held[dc] := false]), held := s.held - {dc}, open := s.open - {dc})
  }

  function OnTransportClosed(s: Streams): Streams {
    s.(held := s.held - s.open, open := {}, lost := s.lost + set dc | dc in s.open && dc in s.held :: s.held[dc])
  }

  class Transport {
    const mis: Option<nat>
    var sctpStreamIds: array?<bool>
    var nextSctpStreamId: nat
    var held: map<ConsumerId, nat>
    var open: set<ConsumerId>
    ghost var lost: set<nat>

    ghost function State(): Streams
      reads this, sctpStreamIds
    {
      Streams(mis, if sctpStreamIds == null then None else Some(sctpStreamIds[..]), nextSctpStreamId, held, open, lost)
    }

    ghost predicate Valid()
      reads this, sctpStreamIds
    {
      Inv(State())
    }

    constructor (mis: Option<nat>)
      ensures Valid() && State() == Streams(mis, None, 0, map[], {}, {})
    {
      this.mis, sctpStreamIds, nextSctpStreamId := mis, null, 0;
      held, open, lost := map[], {}, {};
    }

    method GetNextSctpStreamId() returns (r: Result<nat, StreamError>)
      modifies this`sctpStreamIds, this`nextSctpStreamId
      ensures mis.None? ==> r == Err(MissingMis) && State() == old(State())
      ensures mis.Some? ==>
                var marks := old(Marks(State()));
                var id := FirstFree(marks, old(nextSctpStreamId), 0);
                && sctpStreamIds != null && sctpStreamIds[..] == marks
                && (sctpStreamIds == old(sctpStreamIds) || fresh(sctpStreamIds))
                && (id.None? ==> r == Err(NoStreamIdAvailable) && nextSctpStreamId == old(nextSctpStreamId))
                && (id.Some? ==> r == Ok(id.value) && id.value < |marks| && nextSctpStreamId == id.value + 1)
    {
      if mis.None? {
        return Err(MissingMis);
      }
      if sctpStreamIds == null {
        sctpStreamIds := new bool[mis.value](_ => false);
      }
      ghost var marks := sctpStreamIds[..];
      assert marks == old(Marks(State()));
      var idx := 0;
      while idx < sctpStreamIds.Length
        invariant idx <= sctpStreamIds.Length && sctpStreamIds[..] == marks
        invariant nextSctpStreamId == old(nextSctpStreamId)
        invariant FirstFree(marks, nextSctpStreamId, 0) == FirstFree(marks, nextSctpStreamId, idx)
      {
        var id := (nextSctpStreamId + idx) % sctpStreamIds.Length;
        if !sctpStreamIds[id] {
          nextSctpStreamId := id + 1;
          return Ok(id);
        }
        idx := idx + 1;
      }
      r := Err(NoStreamIdAvailable);
    }

    /** The part of `consumeData` before the worker replies. */
    method ConsumeData(dc: ConsumerId) returns (r: Result<nat, StreamError>)
      requires Valid() && dc !in held
      modifies this, sctpStreamIds
      ensures Valid() && (State(), r) == OnStart(old(State()), dc)
    {
      StartInv(State(), dc);
      r := GetNextSctpStreamId();
      if r.Ok? {
        sctpStreamIds[r.value] := true;
        held := held[dc := r.value];
      }
    }

    /** The request of a pending data consumer succeeds. */
    method Replied(dc: ConsumerId)
      requires Valid() && dc in held && dc !in open
      modifies this`open
      ensures Valid() && State() == OnReply(old(State()), dc)
    {
      ReplyInv(State(), dc);
      open := open + {dc};
    }

    /** The request of a pending data consumer fails: its id stays marked. */
    method RequestFailed(dc: ConsumerId)
      requires Valid() && dc in held && dc !in open
      modifies this`held, this`lost
      ensures Valid() && State() == OnFailure(old(State()), dc)
    {
      FailureInv(State(), dc);
      lost := lost + {held[dc]};
      held := held - {dc};
    }

    /** An open data consumer is closed, or its data producer is. */
    method CloseDataConsumer(dc: ConsumerId)
      requires Valid() && dc in open
      modifies this`held, this`open, sctpStreamIds
      ensures Valid() && State() == OnClose(old(State()), dc)
    {
      CloseInv(State(), dc);
      assert Holds(State(), dc, held[dc]);
      sctpStreamIds[held[dc]] := false;
      open := open - {dc};
      held := held - {dc};
    }

    /** The transport closes: its data consumers are told, and their ids stay marked. */
    method CloseAll()
      requires Valid()
      modifies this`held, this`open, this`lost
      ensures Valid() && State() == OnTransportClosed(old(State()))
    {
      TransportClosedInv(State());
      lost := lost + set dc | dc in open && dc in held :: held[dc];
      held, open := held - open, {};
    }
  }

  // ----- the circular scan -----

  lemma TurnSmall(cursor: nat, idx: nat, n: nat)
    requires 0 < n && cursor <= n && idx < n
    ensures Turn(cursor, idx, n) == if cursor + idx < n then cursor + idx else cursor + idx - n
  {
    if cursor + idx < n {
      SmallMod(cursor + idx, n);
    } else {
      SmallMod(cursor + idx - n, n);
      assert (cursor + idx - n + n) % n == (cursor + idx - n) % n;
    }
  }

  lemma SmallMod(x: nat, n: nat)
    requires x < n
    ensures x % n == x
  {
  }

  /** The scan picks the first unmarked id in cyclic order from the cursor. */
  lemma {:induction false} FirstFreeIsFirst(marks: seq<bool>, cursor: nat, idx: nat)
    requires FirstFree(marks, cursor, idx).Some?
    ensures exists j :: idx <= j < |marks| && FirstFree(marks, cursor, idx) == Some(Turn(cursor, j, |marks|))
                        && !marks[Turn(cursor, j, |marks|)]
                        && forall i :: idx <= i < j ==> marks[Turn(cursor, i, |marks|)]
    decreases |marks| - idx
  {
    if marks[Turn(cursor, idx, |marks|)] {
      FirstFreeIsFirst(marks, cursor, idx + 1);
    } else {
      assert FirstFree(marks, cursor, idx) == Some(Turn(cursor, idx, |marks|));
    }
  }

  lemma {:induction false} FirstFreeNone(marks: seq<bool>, cursor: nat, idx: nat)
    ensures FirstFree(marks, cursor, idx).None? <==> forall j :: idx <= j < |marks| ==> marks[Turn(cursor, j, |marks|)]
    decreases |marks| - idx
  {
    if idx < |marks| {
      FirstFreeNone(marks, cursor, idx + 1);
    }
  }

  /** The turn at which an id is tried. */
  function TurnOf(cursor: nat, k: nat, n: nat): (j: nat)
    requires 0 < n && cursor <= n && k < n
    ensures j < n && Turn(cursor, j, n) == k
  {
    var j := if k >= cursor then k - cursor else if cursor < n then k + n - cursor else k;
    TurnSmall(cursor, j, n);
    j
  }

  /** It fails exactly when all ids are marked. */
  lemma NoneFreeExactly(marks: seq<bool>, cursor: nat)
    requires cursor <= |marks|
    ensures FirstFree(marks, cursor, 0).None? <==> forall k :: 0 <= k < |marks| ==> marks[k]
  {
    FirstFreeNone(marks, cursor, 0);
    if FirstFree(marks, cursor, 0).None? {
      forall k | 0 <= k < |marks|
        ensures marks[k]
      {
        var j := TurnOf(cursor, k, |marks|);
        assert marks[Turn(cursor, j, |marks|)];
      }
    }
  }

  // ----- every run -----

  datatype Event =
    | Start(dc: ConsumerId)
    | Reply(dc: ConsumerId)
    | Failure(dc: ConsumerId)
    | Close(dc: ConsumerId)
    | TransportClosed

  ghost predicate Holds(s: Streams, dc: ConsumerId, k: nat) { dc in s.held && s.held[dc] == k }

  ghost predicate Held(s: Streams, k: nat) { exists dc :: Holds(s, dc, k) }

  ghost predicate Inv(s: Streams) {
    && s.open <= s.held.Keys
    && (s.marks.None? ==> s.held == map[] && s.lost == {} && s.cursor == 0)
    && (s.marks.Some? ==> s.mis == Some(|s.marks.value|) && s.cursor <= |s.marks.value| && Accounted(s, s.marks.value))
  }

  /** No two data consumers share an id, and an id is marked exactly when one holds it or it was lost. */
  ghost predicate Accounted(s: Streams, marks: seq<bool>) {
    && (forall dc, k: nat :: Holds(s, dc, k) ==> k < |marks| && k !in s.lost)
    && (forall dc, ec, k: nat :: Holds(s, dc, k) && Holds(s, ec, k) ==> dc == ec)
    && (forall k :: 0 <= k < |marks| ==> (marks[k] <==> k in s.lost || Held(s, k)))
  }

  /** The events that can happen: a new data consumer, an answer to a pending one, a close of an open one. */
  predicate Enabled(s: Streams, e: Event) {
    match e
    case Start(dc) => dc !in s.held
    case Reply(dc) => dc in s.held && dc !in s.open
    case Failure(dc) => dc in s.held && dc !in s.open
    case Close(dc) => dc in s.open
    case TransportClosed => true
  }

  function Step(s: Streams, e: Event): Streams {
    if !Enabled(s, e) then s else
    match e
    case Start(dc) => OnStart(s, dc).0
    case Reply(dc) => OnReply(s, dc)
    case Failure(dc) => OnFailure(s, dc)
    case Close(dc) => OnClose(s, dc)
    case TransportClosed => OnTransportClosed(s)
  }

  function Run(s: Streams, events: seq<Event>): Streams {
    if events == [] then s else Step(Run(s, Init(events)), Last(events))
  }

  lemma {:induction false} RunInv(s: Streams, events: seq<Event>)
    requires Inv(s)
    ensures Inv(Run(s, events))
  {
    if events != [] {
      RunInv(s, Init(events));
      StepInv(Run(s, Init(events)), Last(events));
    }
  }

  /** Over every run of a transport: sharing never happens, and marks are accounted for. */
  lemma RunAccounted(mis: Option<nat>, events: seq<Event>)
    ensures var s := Run(Streams(mis, None, 0, map[], {}, {}), events);
            Inv(s) && (s.marks.Some? ==> Accounted(s, s.marks.value))
  {
    RunInv(Streams(mis, None, 0, map[], {}, {}), events);
  }

  lemma StepInv(s: Streams, e: Event)
    requires Inv(s)
    ensures Inv(Step(s, e))
  {
    if Enabled(s, e) {
      match e
      case Start(dc) => StartInv(s, dc);
      case Reply(dc) => ReplyInv(s, dc);
      case Failure(dc) => FailureInv(s, dc);
      case Close(dc) => CloseInv(s, dc);
      case TransportClosed => TransportClosedInv(s);
    }
  }

  /** Before the buffer exists every id is free. */
  lemma FreshAccounted(s: Streams)
    requires Inv(s) && s.mis.Some?
    ensures Accounted(s, Marks(s)) && s.cursor <= |Marks(s)| == s.mis.value
  {
  }

  lemma StartInv(s: Streams, dc: ConsumerId)
    requires Inv(s) && dc !in s.held
    ensures Inv(OnStart(s, dc).0)
  {
    var (t, r) := OnStart(s, dc);
    if s.mis.Some? {
      FreshAccounted(s);
      var marks := Marks(s);
      if r.Ok? {
        FirstFreeIsFirst(marks, s.cursor, 0);
        HoldNew(s, t, marks, dc, r.value);
      } else {
        SameHolders(s, t, marks);
      }
    }
  }

  lemma SameHolders(s: Streams, t: Streams, marks: seq<bool>)
    requires Accounted(s, marks) && t.held == s.held && t.lost == s.lost
    ensures Accounted(t, marks)
  {
    forall dc, k
      ensures Holds(t, dc, k) <==> Holds(s, dc, k)
    {
    }
    forall k
      ensures Held(t, k) <==> Held(s, k)
    {
      if Held(s, k) {
        var dc :| Holds(s, dc, k);
        assert Holds(t, dc, k);
      }
    }
  }

  lemma ReplyInv(s: Streams, dc: ConsumerId)
    requires Inv(s) && dc in s.held
    ensures var t := OnReply(s, dc);
            && Inv(t) && t.open == s.open + {dc} && t.held == s.held && t.marks == s.marks && t.lost == s.lost
            && t.cursor == s.cursor
  {
    if s.marks.Some? {
      SameHolders(s, OnReply(s, dc), s.marks.value);
    }
  }

  lemma HoldNew(s: Streams, t: Streams, marks: seq<bool>, dc: ConsumerId, id: nat)
    requires Accounted(s, marks) && dc !in s.held && id < |marks| && !marks[id]
    requires t.held == s.held[dc := id] && t.lost == s.lost
    ensures Accounted(t, marks[id := true])
  {
    forall ec, k
      ensures Holds(t, ec, k) <==> Holds(s, ec, k) || (ec == dc && k == id)
    {
    }
    forall k | 0 <= k < |marks|
      ensures Held(t, k) <==> Held(s, k) || k == id
    {
      assert Holds(t, dc, id);
      if Held(s, k) {
        var ec :| Holds(s, ec, k);
        assert Holds(t, ec, k);
      }
    }
  }

  /** What holds once `gone` have let go of their ids. */
  lemma LetGo(s: Streams, t: Streams, gone: set<ConsumerId>, k: nat)
    requires t.held == s.held - gone
    ensures Held(t, k) <==> exists dc :: dc !in gone && Holds(s, dc, k)
  {
    if Held(t, k) {
      var dc :| Holds(t, dc, k);
      assert Holds(s, dc, k);
    }
    forall dc | dc !in gone && Holds(s, dc, k)
      ensures Held(t, k)
    {
      assert Holds(t, dc, k);
    }
  }

  lemma FailureInv(s: Streams, dc: ConsumerId)
    requires Inv(s) && dc in s.held && dc !in s.open
    ensures Inv(OnFailure(s, dc))
  {
    LoseInv(s, OnFailure(s, dc), {dc}, {s.held[dc]});
  }

  lemma TransportClosedInv(s: Streams)
    requires Inv(s)
    ensures Inv(OnTransportClosed(s))
  {
    if s.marks.Some? {
      LoseInv(s, OnTransportClosed(s), s.open, set dc | dc in s.open && dc in s.held :: s.held[dc]);
    }
  }

  lemma LoseInv(s: Streams, t: Streams, gone: set<ConsumerId>, ids: set<nat>)
    requires Inv(s) && s.marks.Some? && gone <= s.held.Keys
    requires forall k :: k in ids <==> exists dc :: dc in gone && Holds(s, dc, k)
    requires t == s.(held := s.held - gone, open := s.open - gone, lost := s.lost + ids)
    ensures Inv(t)
  {
    var marks := s.marks.value;
    forall dc, k | Holds(t, dc, k)
      ensures Holds(s, dc, k) && k !in t.lost
    {
      assert Holds(s, dc, k);
    }
    forall k | 0 <= k < |marks|
      ensures marks[k] <==> k in t.lost || Held(t, k)
    {
      LetGo(s, t, gone, k);
    }
  }

  lemma CloseInv(s: Streams, dc: ConsumerId)
    requires Inv(s) && dc in s.open
    ensures Inv(OnClose(s, dc))
  {
    var t, id := OnClose(s, dc), s.held[dc];
    assert Holds(s, dc, id);
    forall ec, k | Holds(t, ec, k)
      ensures Holds(s, ec, k) && k != id
    {
      assert Holds(s, ec, k);
    }
    forall k | 0 <= k < |t.marks.value|
      ensures t.marks.value[k] <==> k in t.lost || Held(t, k)
    {
      LetGo(s, t, {dc}, k);
    }
  }

  /** An id is freed by the close of its holder and by nothing else, and taken by the allocation only. */
  lemma MarkChanges(s: Streams, e: Event, k: nat)
    requires Inv(s) && Enabled(s, e) && s.marks.Some? && k < |s.marks.value|
    ensures var t := Step(s, e);
            && t.marks.Some? && |t.marks.value| == |s.marks.value|
            && (s.marks.value[k] && !t.marks.value[k] <==> e.Close? && s.held[e.dc] == k)
            && (!s.marks.value[k] && t.marks.value[k] <==> e.Start? && OnStart(s, e.dc).1 == Ok(k))
  {
    if e.Start? && OnStart(s, e.dc).1.Ok? {
      FirstFreeIsFirst(Marks(s), s.cursor, 0);
    }
    if e.Close? {
      assert Holds(s, e.dc, s.held[e.dc]);
      assert Held(s, s.held[e.dc]);
    }
  }

  /** What an allocation does: it takes the first unmarked id in cyclic order from the cursor, marks it and no other,
      gives it to the data consumer, and moves the cursor right behind it; if it fails, nothing but the buffer is
      made. */
  lemma StartTakes(s: Streams, dc: ConsumerId)
    requires Inv(s) && s.mis.Some? && dc !in s.held
    ensures var (t, r) := OnStart(s, dc);
            && t.marks.Some? && |t.marks.value| == s.mis.value && t.lost == s.lost && t.open == s.open && t.mis == s.mis
            && (r.Err? ==> r.error == NoStreamIdAvailable && t.cursor == s.cursor && t.held == s.held)
            && (r.Ok? ==>
                  && t.cursor == r.value + 1 && t.held == s.held[dc := r.value]
                  && r.value < s.mis.value && FirstInTurn(s, s.mis.value, r.value))
  {
    FreshAccounted(s);
    if OnStart(s, dc).1.Ok? {
      TakenInTurn(s);
    }
  }

  /** Without the number of streams nothing happens but the error. */
  lemma StartWithoutMis(s: Streams, dc: ConsumerId)
    requires s.mis.None?
    ensures OnStart(s, dc).0 == s && OnStart(s, dc).1 == Err(MissingMis)
  {
  }

  /** The id is not marked, and those that come before it in cyclic order from the cursor are. */
  ghost predicate FirstInTurn(s: Streams, n: nat, id: nat)
    requires n > 0
  {
    && !Marked(s, id)
    && exists j :: 0 <= j < n && id == Turn(s.cursor, j, n)
                   && forall i :: 0 <= i < j ==> Marked(s, Turn(s.cursor, i, n))
  }

  ghost predicate Marked(s: Streams, k: int) {
    s.marks.Some? && 0 <= k < |s.marks.value| && s.marks.value[k]
  }

  lemma TakenInTurn(s: Streams)
    requires s.mis.Some? && |Marks(s)| == s.mis.value && FirstFree(Marks(s), s.cursor, 0).Some?
    ensures FirstInTurn(s, s.mis.value, FirstFree(Marks(s), s.cursor, 0).value)
  {
    var marks, n := Marks(s), s.mis.value;
    FirstFreeIsFirst(marks, s.cursor, 0);
    var j :| 0 <= j < n && FirstFree(marks, s.cursor, 0) == Some(Turn(s.cursor, j, n)) && !marks[Turn(s.cursor, j, n)]
             && forall i :: 0 <= i < j ==> marks[Turn(s.cursor, i, n)];
    forall i | 0 <= i < j
      ensures Marked(s, Turn(s.cursor, i, n))
    {
      assert marks[Turn(s.cursor, i, n)];
    }
  }

  /** A lost id is never given out again. */
  lemma {:induction false} LostForGood(s: Streams, events: seq<Event>, k: nat)
    requires Inv(s) && k in s.lost
    ensures k in Run(s, events).lost && !Held(Run(s, events), k)
  {
    RunInv(s, events);
    if events != [] {
      LostForGood(s, Init(events), k);
    }
    LostNotHeld(Run(s, events), k);
  }

  /** A request that fails loses its id: on a transport with a single stream every later request then fails. */
  lemma FailureLosesId(dc: ConsumerId, ec: ConsumerId)
    ensures var s := Run(Streams(Some(1), None, 0, map[], {}, {}), [Start(dc), Failure(dc)]);
            Inv(s) && s.held == map[] && 0 in s.lost && OnStart(s, ec).1 == Err(NoStreamIdAvailable)
  {
    var start, e := Streams(Some(1), None, 0, map[], {}, {}), [Start(dc), Failure(dc)];
    RunInv(start, e);
    assert Init(e) == [Start(dc)] && Init([Start(dc)]) == [];
    assert Turn(0, 0, 1) == 0 && FirstFree(Marks(start), 0, 0) == Some(0);
    assert Run(start, [Start(dc)]) == OnStart(start, dc).0;
    var s := Run(start, e);
    assert s == OnFailure(OnStart(start, dc).0, dc);
    assert s.held == map[];
    StartFailsExactly(s, ec);
  }

  lemma LostNotHeld(s: Streams, k: nat)
    requires Inv(s) && k in s.lost
    ensures !Held(s, k)
  {
  }

  /** Allocation fails exactly when every id is held or lost, even if no data consumer is left to hold one. */
  lemma StartFailsExactly(s: Streams, dc: ConsumerId)
    requires Inv(s) && s.mis.Some?
    ensures OnStart(s, dc).1.Err? <==> forall k :: 0 <= k < s.mis.value ==> k in s.lost || Held(s, k)
  {
    FreshAccounted(s);
    NoneFreeExactly(Marks(s), s.cursor);
    if FirstFree(Marks(s), s.cursor, 0).Some? {
      FirstFreeIsFirst(Marks(s), s.cursor, 0);
    }
  }
}
