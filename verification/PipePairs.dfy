/** The pairs of pipe transports that join routers, shared by all `pipeToRouter` calls between them. */
module PipePairs {
  import opened Common

  type RouterId = nat

  datatype Status = Creating | Live | Failed

  /** One of the two transports of a pair. `heard` when the handlers of its close event were registered while it was
      still open: closing it is heard by them only then. */
  datatype End = End(closed: bool, heard: bool) {
    predicate Fired() { closed && heard }
  }

  /** A pair made on behalf of `creator`, with an end at each router. It is `registered` when the other router could
      record it under its own key, `settled` when the handler of that router for the outcome of the pair has run, and
      `watched` when that handler found the router's end open, so that its close will be heard by that router too. */
  datatype Pair = Pair(creator: RouterId, other: RouterId, registered: bool, status: Status, local: End, remote: End,
                       settled: bool, watched: bool)
  {
    /** Being made, or made and with an end that is open. */
    predicate Active() { status.Creating? || (status.Live? && (!local.closed || !remote.closed)) }

    /** The pair joins these two routers. */
    predicate Joins(r: RouterId, q: RouterId) { (creator == r && other == q) || (creator == q && other == r) }

    /** Both ends were closed before the handlers were registered. */
    predicate Unheard() { status.Live? && !local.heard && !remote.heard }

    /** The other router's end was closed before that router's own handler was registered on it. */
    predicate Unwatched() { registered && status.Live? && remote.closed && !watched }

    /** The creator has not had a reason to forget the pair. */
    predicate CreatorHolds() { status.Creating? || status.Failed? || !(local.Fired() || remote.Fired()) }

    /** Nor has the other router, if it recorded the pair at all. */
    predicate OtherHolds() {
      registered && match status
        case Creating => true
        case Failed => !settled
        case Live => !(remote.closed && watched)
    }
  }

  const OPEN := End(false, false)

  function NewPair(creator: RouterId, other: RouterId, registered: bool): Pair {
    Pair(creator, other, registered, Creating, OPEN, OPEN, false, false)
  }

  /** `keys[(r, q)]` is the pair that router r has recorded for router q. */
  datatype Net = Net(keys: map<(RouterId, RouterId), nat>, pairs: seq<Pair>)

  datatype Answer = Awaits(n: nat) | AlreadyExists

  /** A call from `me`: it shares the recorded pair or starts one, which the other router records unless it
      has an entry already. */
  function OnCall(d: Net, me: RouterId, other: RouterId): (Net, Answer) {
    if (me, other) in d.keys then (d, Awaits(d.keys[(me, other)])) else
    var n := |d.pairs|;
    var started := d.keys[(me, other) := n];
    if (other, me) in started
    then (Net(started, d.pairs + [NewPair(me, other, false)]), AlreadyExists)
    else (Net(started[(other, me) := n], d.pairs + [NewPair(me, other, true)]), Awaits(n))
  }

  /** The creator's handlers are registered on both ends; one that is closed already will not emit any more. */
  function Wire(p: Pair): Pair {
    p.(status := Live, local := p.local.(heard := !p.local.closed), remote := p.remote.(heard := !p.remote.closed))
  }

  function OnReady(d: Net, n: nat): Net
    requires n < |d.pairs|
  {
    d.(pairs := d.pairs[n := Wire(d.pairs[n])])
  }

  /** An end after a failure: `made` tells whether its transport was made and `both` whether both were. The creator
      gets hold of the transports only if both were made, and closes them then; an end that was never made counts as
      closed. */
  function Dispose(e: End, made: bool, both: bool): End {
    e.(closed := e.closed || !made || both)
  }

  /** The creating router keeps the rejected promise. */
  function OnFailed(d: Net, n: nat, localMade: bool, remoteMade: bool): Net
    requires n < |d.pairs|
  {
    var p, both := d.pairs[n], localMade && remoteMade;
    d.(pairs := d.pairs[n := p.(status := Failed, local := Dispose(p.local, localMade, both),
                                remote := Dispose(p.remote, remoteMade, both))])
  }

  /** The other router learns of the outcome: it registers its handler on its own end, or forgets the pair. */
  function OnSettled(d: Net, n: nat): Net
    requires n < |d.pairs|
  {
    var p := d.pairs[n];
    if p.status.Failed? then Net(d.keys - {(p.other, p.creator)}, d.pairs[n := p.(settled := true)])
    else d.(pairs := d.pairs[n := p.(settled := true, watched := !p.remote.closed)])
  }

  /** It does so once, if it recorded the pair, when that has failed or is ready. */
  predicate Settles(d: Net, n: nat) {
    n < |d.pairs| && d.pairs[n].registered && !d.pairs[n].settled && !d.pairs[n].status.Creating?
  }

  function EndOf(p: Pair, local: bool): End { if local then p.local else p.remote }

  function OpenEnds(p: Pair): nat {
    (if p.local.closed then 0 else 1) + if p.remote.closed then 0 else 1
  }

  function CloseOne(p: Pair, local: bool): Pair {
    if local then p.(local := p.local.(closed := true)) else p.(remote := p.remote.(closed := true))
  }

  /** What closing an end comes to. Without handlers it closes that end only. Otherwise both ends are closed, the
      creator forgets the pair, and so does the other router if its own end was open and watched. */
  function OnEndClosed(d: Net, n: nat, local: bool): Net
    requires n < |d.pairs|
  {
    var p := d.pairs[n];
    if EndOf(p, local).closed then d
    else if !p.status.Live? then d.(pairs := d.pairs[n := CloseOne(p, local)])
    else Net(d.keys - Forgotten(p), d.pairs[n := CloseOne(CloseOne(p, true), false)])
  }

  /** The keys that are deleted when an end of a live pair closes. */
  function Forgotten(p: Pair): set<(RouterId, RouterId)> {
    {(p.creator, p.other)} + if p.watched && !p.remote.closed then {(p.other, p.creator)} else {}
  }

  class Host {
    var keys: map<(RouterId, RouterId), nat>
    var pairs: seq<Pair>

    function State(): Net
      reads this
    {
      Net(keys, pairs)
    }

    ghost predicate Valid()
      reads this
    {
      Inv(State())
    }

    constructor ()
      ensures Valid() && State() == Net(map[], [])
    {
      keys, pairs := map[], [];
    }

    method PipeToRouter(me: RouterId, other: RouterId) returns (answer: Answer)
      requires Valid() && me != other
      modifies this
      ensures Valid() && (State(), answer) == OnCall(old(State()), me, other)
    {
      CallInv(State(), me, other);
      if (me, other) in keys {
        return Awaits(keys[(me, other)]);
      }
      var n := |pairs|;
      keys := keys[(me, other) := n];
      var added := AddPipeTransportPair(other, me, n);
      pairs := pairs + [NewPair(me, other, added)];
      answer := if added then Awaits(n) else AlreadyExists;
    }

    /** False where the source throws: there is an entry under that key. */
    method AddPipeTransportPair(me: RouterId, key: RouterId, n: nat) returns (added: bool)
      modifies this`keys
      ensures added <==> (me, key) !in old(keys)
      ensures keys == if added then old(keys)[(me, key) := n] else old(keys)
    {
      if (me, key) in keys {
        return false;
      }
      keys := keys[(me, key) := n];
      added := true;
    }

    /** Both transports are connected: the creator registers its handlers and the promise of the pair resolves. */
    method PairReady(n: nat)
      requires Valid() && n < |pairs| && pairs[n].status.Creating?
      modifies this
      ensures Valid() && State() == OnReady(old(State()), n)
    {
      ReadyInv(State(), n);
      pairs := pairs[n := Wire(pairs[n])];
    }

    /** Making or connecting a transport has failed: the promise is rejected. The transports are known to the creator
        only if both were made; an end that was not made is nothing that could be open. */
    method PairFailed(n: nat, localMade: bool, remoteMade: bool)
      requires Valid() && n < |pairs| && pairs[n].status.Creating?
      modifies this
      ensures Valid() && State() == OnFailed(old(State()), n, localMade, remoteMade)
    {
      FailedInv(State(), n, localMade, remoteMade);
      ghost var after := OnFailed(State(), n, localMade, remoteMade);
      if localMade && remoteMade {
        CloseBoth(n);
      } else {
        Discard(n, localMade, remoteMade);
      }
      pairs := pairs[n := pairs[n].(status := Failed)];
      assert pairs == after.pairs;
    }

    method CloseBoth(n: nat)
      requires n < |pairs| && pairs[n].status.Creating?
      modifies this
      ensures keys == old(keys) && pairs == old(pairs)[n := CloseOne(CloseOne(old(pairs)[n], true), false)]
    {
      CloseEnd(n, true);
      CloseEnd(n, false);
    }

    /** The creator knows of neither transport. */
    method Discard(n: nat, localMade: bool, remoteMade: bool)
      requires n < |pairs|
      modifies this`pairs
      ensures var p := old(pairs)[n];
              pairs == old(pairs)[n := p.(local := Dispose(p.local, localMade, false),
                                          remote := Dispose(p.remote, remoteMade, false))]
    {
      var p := pairs[n];
      if !localMade {
        p := CloseOne(p, true);
      }
      if !remoteMade {
        p := CloseOne(p, false);
      }
      pairs := pairs[n := p];
    }

    /** The `then` and `catch` handlers of the router that was given the promise of the pair. */
    method PairSettled(n: nat)
      requires Valid() && Settles(State(), n)
      modifies this
      ensures Valid() && State() == OnSettled(old(State()), n)
    {
      SettledInv(State(), n);
      var p := pairs[n];
      if p.status.Failed? {
        keys := keys - {(p.other, p.creator)};
        pairs := pairs[n := p.(settled := true)];
      } else {
        pairs := pairs[n := p.(settled := true, watched := !p.remote.closed)];
      }
    }

    /** The application, a router or a worker closes an end. */
    method EndClosed(n: nat, local: bool)
      requires Valid() && n < |pairs|
      modifies this
      ensures Valid() && State() == OnEndClosed(old(State()), n, local)
    {
      EndClosedInv(State(), n, local);
      CloseEnd(n, local);
    }

    /** `close()` of an end: nothing if it is closed, otherwise its handlers are called. */
    method CloseEnd(n: nat, local: bool)
      requires n < |pairs|
      modifies this
      ensures State() == OnEndClosed(old(State()), n, local)
      decreases OpenEnds(pairs[n]), 0
    {
      if EndOf(pairs[n], local).closed {
        return;
      }
      ghost var before := State();
      pairs := pairs[n := CloseOne(pairs[n], local)];
      if pairs[n].status.Live? {
        if local {
          LocalClosed(n);
        } else {
          RemoteClosed(n);
          if pairs[n].watched {
            OtherForgets(n);
          }
        }
        assert pairs == OnEndClosed(before, n, local).pairs;
        assert keys == OnEndClosed(before, n, local).keys;
      }
    }

    /** The creator's handler on its own end. */
    method LocalClosed(n: nat)
      requires n < |pairs| && pairs[n].status.Live? && pairs[n].local.closed
      modifies this
      ensures State() == OnEndClosed(old(State()), n, false).(keys := keys)
      ensures keys == OnEndClosed(old(State()), n, false).keys - {(old(pairs[n]).creator, old(pairs[n]).other)}
      decreases OpenEnds(pairs[n]), 1
    {
      CloseEnd(n, false);
      keys := keys - {(pairs[n].creator, pairs[n].other)};
    }

    /** The creator's handler on the other router's end. */
    method RemoteClosed(n: nat)
      requires n < |pairs| && pairs[n].status.Live? && pairs[n].remote.closed
      modifies this
      ensures State() == OnEndClosed(old(State()), n, true).(keys := keys)
      ensures keys == OnEndClosed(old(State()), n, true).keys - {(old(pairs[n]).creator, old(pairs[n]).other)}
      decreases OpenEnds(pairs[n]), 1
    {
      CloseEnd(n, true);
      keys := keys - {(pairs[n].creator, pairs[n].other)};
    }

    /** The other router's handler on its own end. */
    method OtherForgets(n: nat)
      requires n < |pairs|
      modifies this`keys
      ensures keys == old(keys) - {(pairs[n].other, pairs[n].creator)}
    {
      keys := keys - {(pairs[n].other, pairs[n].creator)};
    }
  }

  // ----- every interleaving -----

  datatype Event =
    | Call(me: RouterId, other: RouterId)
    | Ready(n: nat)
    | Fail(n: nat, localMade: bool, remoteMade: bool)
    | Settle(n: nat)
    | EndClose(n: nat, local: bool)

  function Step(d: Net, e: Event): Net {
    match e
    case Call(me, other) => if me == other then d else OnCall(d, me, other).0
    case Ready(n) => if n < |d.pairs| && d.pairs[n].status.Creating? then OnReady(d, n) else d
    case Fail(n, localMade, remoteMade) =>
      if n < |d.pairs| && d.pairs[n].status.Creating? then OnFailed(d, n, localMade, remoteMade) else d
    case Settle(n) => if Settles(d, n) then OnSettled(d, n) else d
    case EndClose(n, local) => if n < |d.pairs| then OnEndClosed(d, n, local) else d
  }

  function Run(d: Net, events: seq<Event>): Net {
    if events == [] then d else Step(Run(d, Init(events)), Last(events))
  }

  ghost predicate HasKey(d: Net, r: RouterId, q: RouterId, n: nat) {
    (r, q) in d.keys && d.keys[(r, q)] == n
  }

  /** A key that will never be deleted: its pair failed while r was making it, or the end whose close would make r
      forget it was closed before that was heard. */
  ghost predicate Final(d: Net, r: RouterId, q: RouterId) {
    && (r, q) in d.keys && d.keys[(r, q)] < |d.pairs|
    && var p := d.pairs[d.keys[(r, q)]];
       || (p.creator == r && p.other == q && (p.status.Failed? || p.Unheard()))
       || (p.creator == q && p.other == r && p.Unwatched())
  }

  /** A closed end that was heard has closed its peer, and an end that is not heard has been closed before. */
  ghost predicate EndsOk(p: Pair) {
    && (!p.status.Live? ==> !p.local.heard && !p.remote.heard && !p.watched)
    && (p.status.Live? ==> (p.local.closed || p.local.heard) && (p.remote.closed || p.remote.heard))
    && (p.local.Fired() || p.remote.Fired() ==> p.local.closed && p.remote.closed)
    && (p.watched ==> p.registered && p.settled && p.remote.heard)
    && (p.registered && p.settled && p.status.Live? && !p.remote.closed ==> p.watched)
    && (p.status.Creating? ==> !p.settled)
  }

  ghost predicate PairOk(d: Net, n: nat)
    requires n < |d.pairs|
  {
    var p := d.pairs[n];
    && p.creator != p.other && EndsOk(p)
    && (p.CreatorHolds() ==> HasKey(d, p.creator, p.other, n))
    && (p.OtherHolds() ==> HasKey(d, p.other, p.creator, n))
    && (p.CreatorHolds() && !p.registered && !p.status.Failed? ==> Final(d, p.other, p.creator))
  }

  ghost predicate KeyOk(d: Net, r: RouterId, q: RouterId)
    requires (r, q) in d.keys
  {
    var n := d.keys[(r, q)];
    && n < |d.pairs|
    && var p := d.pairs[n];
       (p.creator == r && p.other == q && p.CreatorHolds()) || (p.creator == q && p.other == r && p.OtherHolds())
  }

  ghost predicate Inv(d: Net) {
    && (forall n :: 0 <= n < |d.pairs| ==> PairOk(d, n))
    && (forall r, q :: (r, q) in d.keys ==> KeyOk(d, r, q))
  }

  lemma {:induction false} RunInv(events: seq<Event>)
    ensures Inv(Run(Net(map[], []), events))
  {
    if events != [] {
      RunInv(Init(events));
      StepInv(Run(Net(map[], []), Init(events)), Last(events));
    }
  }

  /** Every step keeps the invariant, and every key that is final. */
  lemma StepInv(d: Net, e: Event)
    requires Inv(d)
    ensures Inv(Step(d, e)) && FinalKept(d, Step(d, e))
  {
    match e
    case Call(me, other) =>
      if me != other {
        CallInv(d, me, other);
      }
    case Ready(n) =>
      if n < |d.pairs| && d.pairs[n].status.Creating? {
        ReadyInv(d, n);
      }
    case Fail(n, localMade, remoteMade) =>
      if n < |d.pairs| && d.pairs[n].status.Creating? {
        FailedInv(d, n, localMade, remoteMade);
      }
    case Settle(n) =>
      if Settles(d, n) {
        SettledInv(d, n);
      }
    case EndClose(n, local) =>
      if n < |d.pairs| {
        EndClosedInv(d, n, local);
      }
  }

  ghost predicate FinalKept(d: Net, t: Net) {
    forall r, q :: Final(d, r, q) ==> Final(t, r, q) && t.keys[(r, q)] == d.keys[(r, q)]
  }

  /** A key that is recorded on one side only is final. */
  lemma OneSidedFinal(d: Net, r: RouterId, q: RouterId)
    requires Inv(d) && (r, q) in d.keys && (q, r) !in d.keys
    ensures Final(d, r, q)
  {
    assert KeyOk(d, r, q);
    assert PairOk(d, d.keys[(r, q)]);
  }

  lemma CallInv(d: Net, me: RouterId, other: RouterId)
    requires Inv(d) && me != other
    ensures Inv(OnCall(d, me, other).0) && FinalKept(d, OnCall(d, me, other).0)
  {
    if (me, other) !in d.keys {
      var t := OnCall(d, me, other).0;
      assert FinalKept(d, t);
      if (other, me) in d.keys {
        OneSidedFinal(d, other, me);
      }
      forall n | 0 <= n < |t.pairs|
        ensures PairOk(t, n)
      {
        if n < |d.pairs| {
          assert PairOk(d, n);
        }
      }
      forall r, q | (r, q) in t.keys
        ensures KeyOk(t, r, q)
      {
        if (r, q) in d.keys {
          assert KeyOk(d, r, q);
        }
      }
    }
  }

  lemma ReadyInv(d: Net, n: nat)
    requires Inv(d) && n < |d.pairs| && d.pairs[n].status.Creating?
    ensures Inv(OnReady(d, n)) && FinalKept(d, OnReady(d, n))
  {
    var t := OnReady(d, n);
    assert PairOk(d, n);
    assert FinalKept(d, t);
    forall m | 0 <= m < |t.pairs|
      ensures PairOk(t, m)
    {
      assert PairOk(d, m);
    }
    forall r, q | (r, q) in t.keys
      ensures KeyOk(t, r, q)
    {
      assert KeyOk(d, r, q);
    }
  }

  lemma FailedInv(d: Net, n: nat, localMade: bool, remoteMade: bool)
    requires Inv(d) && n < |d.pairs| && d.pairs[n].status.Creating?
    ensures var t := OnFailed(d, n, localMade, remoteMade); Inv(t) && FinalKept(d, t)
  {
    var t := OnFailed(d, n, localMade, remoteMade);
    assert PairOk(d, n);
    assert FinalKept(d, t);
    forall m | 0 <= m < |t.pairs|
      ensures PairOk(t, m)
    {
      assert PairOk(d, m);
    }
    forall r, q | (r, q) in t.keys
      ensures KeyOk(t, r, q)
    {
      assert KeyOk(d, r, q);
    }
  }

  lemma SettledInv(d: Net, n: nat)
    requires Inv(d) && Settles(d, n)
    ensures Inv(OnSettled(d, n)) && FinalKept(d, OnSettled(d, n))
  {
    var t := OnSettled(d, n);
    assert PairOk(d, n);
    assert FinalKept(d, t);
    forall m | 0 <= m < |t.pairs|
      ensures PairOk(t, m)
    {
      assert PairOk(d, m);
    }
    forall r, q | (r, q) in t.keys
      ensures KeyOk(t, r, q)
    {
      assert KeyOk(d, r, q);
    }
  }

  lemma EndClosedInv(d: Net, n: nat, local: bool)
    requires Inv(d) && n < |d.pairs|
    ensures Inv(OnEndClosed(d, n, local)) && FinalKept(d, OnEndClosed(d, n, local))
  {
    if !EndOf(d.pairs[n], local).closed {
      if d.pairs[n].status.Live? {
        LiveClosedInv(d, n);
      } else {
        QuietCloseInv(d, n, local);
      }
    }
  }

  lemma QuietCloseInv(d: Net, n: nat, local: bool)
    requires Inv(d) && n < |d.pairs| && !d.pairs[n].status.Live?
    ensures var t := d.(pairs := d.pairs[n := CloseOne(d.pairs[n], local)]); Inv(t) && FinalKept(d, t)
  {
    var t := d.(pairs := d.pairs[n := CloseOne(d.pairs[n], local)]);
    assert PairOk(d, n);
    assert FinalKept(d, t);
    forall m | 0 <= m < |t.pairs|
      ensures PairOk(t, m)
    {
      assert PairOk(d, m);
    }
    forall r, q | (r, q) in t.keys
      ensures KeyOk(t, r, q)
    {
      assert KeyOk(d, r, q);
    }
  }

  lemma LiveClosedInv(d: Net, n: nat)
    requires Inv(d) && n < |d.pairs| && d.pairs[n].status.Live?
    requires !d.pairs[n].local.closed || !d.pairs[n].remote.closed
    ensures var t := Net(d.keys - Forgotten(d.pairs[n]), d.pairs[n := CloseOne(CloseOne(d.pairs[n], true), false)]);
            Inv(t) && FinalKept(d, t)
  {
    var p := d.pairs[n];
    var t := Net(d.keys - Forgotten(p), d.pairs[n := CloseOne(CloseOne(p, true), false)]);
    assert PairOk(d, n);
    assert HasKey(d, p.creator, p.other, n) && (p.watched && !p.remote.closed ==> HasKey(d, p.other, p.creator, n));
    assert FinalKept(d, t);
    forall m | 0 <= m < |t.pairs|
      ensures PairOk(t, m)
    {
      assert PairOk(d, m);
    }
    forall r, q | (r, q) in t.keys
      ensures KeyOk(t, r, q)
    {
      assert KeyOk(d, r, q);
    }
  }

  /** In every run, whatever fails and whenever ends close, at most one pair that is being made, or was made and has
      an open end, joins two routers. */
  lemma AtMostOnePair(events: seq<Event>, n: nat, m: nat, r: RouterId, q: RouterId)
    requires var d := Run(Net(map[], []), events);
             && n < |d.pairs| && m < |d.pairs| && d.pairs[n].Active() && d.pairs[m].Active()
             && d.pairs[n].Joins(r, q) && d.pairs[m].Joins(r, q)
    ensures n == m
  {
    RunInv(events);
    var d := Run(Net(map[], []), events);
    assert PairOk(d, n) && PairOk(d, m);
  }

  /** Why router r holds the key of router q: a pair that is being made, or was made and has an open end, joins them;
      both ends of a pair that was made were closed before the handlers were registered; a pair that r was making has
      failed; r has not yet learned that a pair made for q has failed; or r's end of a pair that it recorded for q was
      closed before r's handler was registered on it. */
  ghost predicate Reason(p: Pair, r: RouterId, q: RouterId) {
    || (p.Joins(r, q) && (p.Active() || p.Unheard()))
    || (p.creator == r && p.other == q && p.status.Failed?)
    || (p.creator == q && p.other == r && p.registered && p.status.Failed? && !p.settled)
    || (p.creator == q && p.other == r && p.Unwatched())
  }

  /** In every run, a router holds another's key exactly when there is a reason to. */
  lemma KeyExactly(events: seq<Event>, r: RouterId, q: RouterId)
    ensures var d := Run(Net(map[], []), events);
            (r, q) in d.keys <==> exists n :: 0 <= n < |d.pairs| && Reason(d.pairs[n], r, q)
  {
    RunInv(events);
    var d := Run(Net(map[], []), events);
    if (r, q) in d.keys {
      assert KeyOk(d, r, q);
      assert PairOk(d, d.keys[(r, q)]);
      assert Reason(d.pairs[d.keys[(r, q)]], r, q);
    }
    forall n | 0 <= n < |d.pairs| && Reason(d.pairs[n], r, q)
      ensures (r, q) in d.keys
    {
      assert PairOk(d, n);
    }
  }

  /** No pair has failed and no end was closed before that was heard. */
  ghost predicate Smooth(d: Net) {
    forall n :: 0 <= n < |d.pairs| ==>
      && !d.pairs[n].status.Failed? && !d.pairs[n].Unwatched()
      && (d.pairs[n].status.Live? ==> d.pairs[n].local.heard && d.pairs[n].remote.heard)
  }

  /** Then the keys are symmetric and name the same pair, which is being made or open at both ends. */
  lemma KeysSymmetric(events: seq<Event>, r: RouterId, q: RouterId)
    requires var d := Run(Net(map[], []), events); (r, q) in d.keys && Smooth(d)
    ensures var d := Run(Net(map[], []), events);
            var n := d.keys[(r, q)];
            && HasKey(d, q, r, n) && n < |d.pairs| && d.pairs[n].Joins(r, q)
            && (d.pairs[n].status.Creating? || (!d.pairs[n].local.closed && !d.pairs[n].remote.closed))
  {
    RunInv(events);
    var d := Run(Net(map[], []), events);
    assert KeyOk(d, r, q);
    assert PairOk(d, d.keys[(r, q)]);
  }

  /** Closing either end of a live pair that is open closes both and clears the creator's key; the other router is left
      without a key for the creator exactly if its own end was open and watched; no other key changes. */
  lemma EndCloseClears(d: Net, n: nat, local: bool)
    requires Inv(d) && n < |d.pairs| && d.pairs[n].status.Live? && !EndOf(d.pairs[n], local).closed
    ensures var p, t := d.pairs[n], OnEndClosed(d, n, local);
            && HasKey(d, p.creator, p.other, n)
            && t.pairs[n].local.closed && t.pairs[n].remote.closed && (p.creator, p.other) !in t.keys
            && ((p.other, p.creator) in t.keys <==> !p.watched || p.remote.closed)
            && forall r: RouterId, q: RouterId :: !p.Joins(r, q) ==> ((r, q) in t.keys <==> (r, q) in d.keys)
  {
    assert PairOk(d, n);
  }

  /** Once both routers have registered their handlers, closing either end clears both keys. */
  lemma SettledCloseClears(d: Net, n: nat, local: bool)
    requires Inv(d) && n < |d.pairs| && d.pairs[n].status.Live? && d.pairs[n].registered && d.pairs[n].settled
    requires !d.pairs[n].local.closed && !d.pairs[n].remote.closed
    ensures var p, t := d.pairs[n], OnEndClosed(d, n, local);
            && HasKey(d, p.creator, p.other, n) && HasKey(d, p.other, p.creator, n)
            && t.pairs[n].local.closed && t.pairs[n].remote.closed
            && t.keys == d.keys - {(p.creator, p.other), (p.other, p.creator)}
  {
    assert PairOk(d, n);
  }

  /** The ordinary life of a pair: it is made, both routers learn of it, an end closes, and both forget it. */
  lemma OrdinaryLife(r: RouterId, q: RouterId, local: bool)
    requires r != q
    ensures var front := Run(Net(map[], []), [Call(r, q), Ready(0), Settle(0)]);
            && HasKey(front, r, q, 0) && HasKey(front, q, r, 0)
            && Run(Net(map[], []), [Call(r, q), Ready(0), Settle(0), EndClose(0, local)]).keys == map[]
  {
    var start, front := Net(map[], []), [Call(r, q), Ready(0), Settle(0)];
    var e := [Call(r, q), Ready(0), Settle(0), EndClose(0, local)];
    Run3(start, front[0], front[1], front[2]);
    assert Init(e) == front;
    RunInv(front);
    SettledCloseClears(Run(start, front), 0, local);
  }

  /** What a call answers: it waits for the pair that its router has recorded from then on, which is the one recorded
      before if there was one and else a new one that the other router records too; it is refused exactly when its own
      router has no entry and the other one has. */
  lemma CallAnswers(d: Net, me: RouterId, other: RouterId)
    requires me != other
    ensures var (t, answer) := OnCall(d, me, other);
            && (answer == AlreadyExists <==> (me, other) !in d.keys && (other, me) in d.keys)
            && (answer.Awaits? ==> HasKey(t, me, other, answer.n))
            && ((me, other) in d.keys ==> t == d)
            && ((me, other) !in d.keys ==>
                  && HasKey(t, me, other, |d.pairs|) && |t.pairs| == |d.pairs| + 1 && d.pairs < t.pairs
                  && var p := t.pairs[|d.pairs|];
                     && p.creator == me && p.other == other && p.status.Creating? && !p.settled && !p.watched
                     && p.local == p.remote == End(false, false)
                     && (p.registered <==> answer.Awaits?) && (p.registered ==> HasKey(t, other, me, |d.pairs|)))
            && (forall r, q :: !((r == me && q == other) || (r == other && q == me)) ==>
                  ((r, q) in t.keys <==> (r, q) in d.keys) && ((r, q) in d.keys ==> t.keys[(r, q)] == d.keys[(r, q)]))
  {
  }

  /** A failure leaves an end open exactly when one transport was made, the other was not, and that one has not been
      closed in the meantime: the creator then knows neither of them. */
  lemma FailureLeaksExactly(d: Net, n: nat, localMade: bool, remoteMade: bool, local: bool)
    requires n < |d.pairs|
    ensures var made, other := if local then localMade else remoteMade, if local then remoteMade else localMade;
            !EndOf(OnFailed(d, n, localMade, remoteMade).pairs[n], local).closed <==>
            made && !other && !EndOf(d.pairs[n], local).closed
  {
  }

  /** A final key stays: that router never gets another pair to the other one. */
  lemma {:induction false} FinalForGood(d: Net, events: seq<Event>, r: RouterId, q: RouterId)
    requires Inv(d) && Final(d, r, q)
    ensures Inv(Run(d, events)) && Final(Run(d, events), r, q)
    ensures Run(d, events).keys[(r, q)] == d.keys[(r, q)]
  {
    if events != [] {
      FinalForGood(d, Init(events), r, q);
      StepInv(Run(d, Init(events)), Last(events));
    }
  }

  /** A creation that fails leaves the calling router with a final key, and the other one with none. */
  lemma FailureIsFinal(r: RouterId, q: RouterId, localMade: bool, remoteMade: bool)
    requires r != q
    ensures var d := Run(Net(map[], []), [Call(r, q), Fail(0, localMade, remoteMade), Settle(0)]);
            Inv(d) && Final(d, r, q) && (q, r) !in d.keys && OnCall(d, r, q).1 == Awaits(0)
  {
    var start, e := Net(map[], []), [Call(r, q), Fail(0, localMade, remoteMade), Settle(0)];
    RunInv(e);
    Run3(start, e[0], e[1], e[2]);
  }

  lemma Run3(d: Net, a: Event, b: Event, c: Event)
    ensures Run(d, [a, b, c]) == Step(Step(Step(d, a), b), c)
  {
    assert Init([a, b, c]) == [a, b] && Init([a, b]) == [a] && Init([a]) == [];
    assert Run(d, [a]) == Step(d, a) && Run(d, [a, b]) == Step(Step(d, a), b);
  }

  /** When only its own transport could be made, it stays open, and the other router can start a second pair. */
  lemma FailureLeaks(r: RouterId, q: RouterId)
    requires r != q
    ensures var d := Run(Net(map[], []), [Call(r, q), Fail(0, true, false), Settle(0), Call(q, r)]);
            && |d.pairs| == 2 && d.pairs[0].Joins(r, q) && d.pairs[1].Joins(r, q)
            && d.pairs[0].status.Failed? && !d.pairs[0].local.closed && d.pairs[1].status.Creating?
  {
    var start := Net(map[], []);
    var front := [Call(r, q), Fail(0, true, false), Settle(0)];
    var e := [Call(r, q), Fail(0, true, false), Settle(0), Call(q, r)];
    Run3(start, e[0], e[1], e[2]);
    assert Init(e) == front;
  }

  /** Ends that close while the pair is still being made leave both routers with final keys to a dead pair. */
  lemma EarlyCloseIsFinal(r: RouterId, q: RouterId)
    requires r != q
    ensures var d := Run(Net(map[], []), [Call(r, q), EndClose(0, true), EndClose(0, false), Ready(0)]);
            Inv(d) && Final(d, r, q) && Final(d, q, r) && !d.pairs[0].Active()
  {
    var start := Net(map[], []);
    var front := [Call(r, q), EndClose(0, true), EndClose(0, false)];
    var e := [Call(r, q), EndClose(0, true), EndClose(0, false), Ready(0)];
    RunInv(e);
    Run3(start, e[0], e[1], e[2]);
    assert Init(e) == front;
  }

  /** So does an end of the other router that closes after the pair is ready but before that router has learned of it;
      the creator forgets the pair, and the other router keeps a final key. */
  lemma LateHandlerIsFinal(r: RouterId, q: RouterId)
    requires r != q
    ensures var d := Run(Net(map[], []), [Call(r, q), Ready(0), EndClose(0, false)]);
            Inv(d) && (r, q) !in d.keys && Final(d, q, r)
  {
    var e := [Call(r, q), Ready(0), EndClose(0, false)];
    RunInv(e);
    Run3(Net(map[], []), e[0], e[1], e[2]);
  }
}
