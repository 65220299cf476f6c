/** The ids of SCTP associations and the checker that runs while there are any. */
module Associations {
  import opened Common

  /** Ids are machine words: they wrap around at `modulus`, and zero is never used. */
  ghost predicate IsId(id: int, modulus: nat) { 0 < id < modulus }

  ghost predicate Free(ids: set<nat>, id: int, modulus: nat) {
    IsId(id, modulus) && id !in ids
  }

  function Increment(id: nat, modulus: nat): nat
    requires id < modulus
  {
    if id + 1 == modulus then 0 else id + 1
  }

  function SkipZero(id: nat): nat { if id == 0 then 1 else id }

  /** How many steps the probe takes from one id to another, going round past zero. */
  function Distance(from: int, id: int, modulus: nat): int {
    if id >= from then id - from else id - from + modulus - 1
  }

  lemma StepCloser(from: nat, id: nat, modulus: nat)
    requires IsId(from, modulus) && IsId(id, modulus) && from != id
    ensures IsId(SkipZero(Increment(from, modulus)), modulus)
    ensures Distance(SkipZero(Increment(from, modulus)), id, modulus) == Distance(from, id, modulus) - 1
  {
  }

  /** The probe, as long as `free` is a free id: the first id from `from` on that is not in use. */
  function Probe(ids: set<nat>, from: nat, free: nat, modulus: nat): nat
    requires IsId(from, modulus) && Free(ids, free, modulus)
    decreases Distance(from, free, modulus)
  {
    if from !in ids then from else
    StepCloser(from, free, modulus);
    Probe(ids, SkipZero(Increment(from, modulus)), free, modulus)
  }

  /** The probe ends at a free id, and no free id is nearer. */
  lemma {:induction false} ProbeNearest(ids: set<nat>, from: nat, free: nat, other: nat, modulus: nat)
    requires IsId(from, modulus) && Free(ids, free, modulus) && Free(ids, other, modulus)
    ensures var r := Probe(ids, from, free, modulus);
            Free(ids, r, modulus) && Distance(from, r, modulus) <= Distance(from, other, modulus)
    decreases Distance(from, free, modulus)
  {
    if from in ids {
      var next := SkipZero(Increment(from, modulus));
      StepCloser(from, free, modulus);
      StepCloser(from, other, modulus);
      ProbeNearest(ids, next, free, other, modulus);
      var r := Probe(ids, next, free, modulus);
      assert r != from;
      StepCloser(from, r, modulus);
    }
  }

  /** It does not matter which free id guarantees that the probe ends. */
  lemma ProbeUnique(ids: set<nat>, from: nat, free: nat, other: nat, modulus: nat)
    requires IsId(from, modulus) && Free(ids, free, modulus) && Free(ids, other, modulus)
    ensures Probe(ids, from, free, modulus) == Probe(ids, from, other, modulus)
  {
    var a, b := Probe(ids, from, free, modulus), Probe(ids, from, other, modulus);
    ProbeNearest(ids, from, free, other, modulus);
    ProbeNearest(ids, from, other, free, modulus);
    ProbeNearest(ids, from, free, b, modulus);
    ProbeNearest(ids, from, other, a, modulus);
  }

  datatype Registry = Registry(next: nat, ids: set<nat>, count: nat, checking: bool)

  /** The counter is the number of registered associations, and the checker runs exactly when it is positive. */
  ghost predicate Inv(r: Registry, modulus: nat) {
    && r.next < modulus
    && (forall id :: id in r.ids ==> IsId(id, modulus))
    && r.count == |r.ids|
    && (r.checking <==> r.count > 0)
  }

  function OnGetNext(r: Registry, free: nat, modulus: nat): (Registry, nat)
    requires 1 < modulus && r.next < modulus && Free(r.ids, free, modulus)
  {
    var id := Probe(r.ids, SkipZero(r.next), free, modulus);
    ProbeNearest(r.ids, SkipZero(r.next), free, free, modulus);
    (r.(next := Increment(id, modulus)), id)
  }

  function OnRegister(r: Registry, id: nat): Registry {
    Registry(r.next, r.ids + {id}, r.count + 1, r.checking || r.count + 1 == 1)
  }

  function OnDeregister(r: Registry, id: nat): Registry
    requires r.count > 0
  {
    Registry(r.next, r.ids - {id}, r.count - 1, r.checking && r.count - 1 != 0)
  }

  class DepUsrSCTP {
    const modulus: nat
    var numSctpAssociations: nat
    var nextSctpAssociationId: nat
    var mapIdSctpAssociation: set<nat>
    var checkerRunning: bool

    function State(): Registry
      reads this
    {
      Registry(nextSctpAssociationId, mapIdSctpAssociation, numSctpAssociations, checkerRunning)
    }

    ghost predicate Valid()
      reads this
    {
      1 < modulus && Inv(State(), modulus)
    }

    constructor (modulus: nat)
      requires 1 < modulus
      ensures Valid() && this.modulus == modulus && State() == Registry(0, {}, 0, false)
    {
      this.modulus := modulus;
      numSctpAssociations, nextSctpAssociationId, mapIdSctpAssociation, checkerRunning := 0, 0, {}, false;
    }

    method GetNextSctpAssociationId(ghost free: nat) returns (id: nat)
      requires Valid() && Free(mapIdSctpAssociation, free, modulus)
      modifies this`nextSctpAssociationId
      ensures Valid() && (State(), id) == OnGetNext(old(State()), free, modulus)
    {
      ghost var start := SkipZero(nextSctpAssociationId);
      if nextSctpAssociationId == 0 {
        nextSctpAssociationId := nextSctpAssociationId + 1;
      }
      while nextSctpAssociationId in mapIdSctpAssociation
        invariant IsId(nextSctpAssociationId, modulus)
        invariant Probe(mapIdSctpAssociation, nextSctpAssociationId, free, modulus) ==
                  Probe(mapIdSctpAssociation, start, free, modulus)
        decreases Distance(nextSctpAssociationId, free, modulus)
      {
        StepCloser(nextSctpAssociationId, free, modulus);
        nextSctpAssociationId := Increment(nextSctpAssociationId, modulus);
        if nextSctpAssociationId == 0 {
          nextSctpAssociationId := nextSctpAssociationId + 1;
        }
      }
      id := nextSctpAssociationId;
      nextSctpAssociationId := Increment(nextSctpAssociationId, modulus);
    }

    method RegisterSctpAssociation(id: nat)
      requires Valid() && Free(mapIdSctpAssociation, id, modulus)
      modifies this
      ensures Valid() && State() == OnRegister(old(State()), id)
    {
      RegisterInv(State(), id, modulus);
      mapIdSctpAssociation := mapIdSctpAssociation + {id};
      numSctpAssociations := numSctpAssociations + 1;
      if numSctpAssociations == 1 {
        checkerRunning := true;
      }
    }

    method DeregisterSctpAssociation(id: nat)
      requires Valid() && id in mapIdSctpAssociation
      modifies this
      ensures Valid() && numSctpAssociations < old(numSctpAssociations) && State() == OnDeregister(old(State()), id)
    {
      DeregisterInv(State(), id, modulus);
      mapIdSctpAssociation := mapIdSctpAssociation - {id};
      numSctpAssociations := numSctpAssociations - 1;
      if numSctpAssociations == 0 {
        checkerRunning := false;
      }
    }

    /** An association takes an id and registers itself: the id is never in use already. */
    method NewAssociation(ghost free: nat) returns (id: nat)
      requires Valid() && Free(mapIdSctpAssociation, free, modulus)
      modifies this
      ensures Valid() && id !in old(mapIdSctpAssociation) && mapIdSctpAssociation == old(mapIdSctpAssociation) + {id}
    {
      ghost var start := SkipZero(nextSctpAssociationId);
      ProbeNearest(mapIdSctpAssociation, start, free, free, modulus);
      id := GetNextSctpAssociationId(free);
      RegisterSctpAssociation(id);
    }
  }

  lemma RegisterInv(r: Registry, id: nat, modulus: nat)
    requires Inv(r, modulus) && Free(r.ids, id, modulus)
    ensures Inv(OnRegister(r, id), modulus)
  {
  }

  lemma DeregisterInv(r: Registry, id: nat, modulus: nat)
    requires Inv(r, modulus) && id in r.ids
    ensures r.count > 0 && Inv(OnDeregister(r, id), modulus)
  {
    assert r.ids == (r.ids - {id}) + {id};
  }

  /** Taking an id keeps the invariant and yields a nonzero id that is not in use, the nearest from the cursor on; the
      cursor moves right behind it, and nothing else changes. */
  lemma GetNextInv(r: Registry, free: nat, modulus: nat)
    requires 1 < modulus && Inv(r, modulus) && Free(r.ids, free, modulus)
    ensures var (t, id) := OnGetNext(r, free, modulus);
            var start := if r.next == 0 then 1 else r.next;
            && Inv(t, modulus) && Free(r.ids, id, modulus) && t == r.(next := t.next)
            && t.next == (id + 1) % modulus
            && forall other :: Free(r.ids, other, modulus) ==>
                 (id - start) % (modulus - 1) <= (other - start) % (modulus - 1)
  {
    var (t, id) := OnGetNext(r, free, modulus);
    var start := SkipZero(r.next);
    forall other: int | Free(r.ids, other, modulus)
      ensures (id - start) % (modulus - 1) <= (other - start) % (modulus - 1)
    {
      ProbeNearest(r.ids, start, free, other, modulus);
      Around(start, id, modulus);
      Around(start, other, modulus);
    }
    ProbeNearest(r.ids, start, free, free, modulus);
    NextModulo(id, modulus);
  }

  /** Distances go around the nonzero ids. */
  lemma Around(from: nat, id: nat, modulus: nat)
    requires IsId(from, modulus) && IsId(id, modulus)
    ensures Distance(from, id, modulus) == (id - from) % (modulus - 1)
  {
    var n, x := modulus - 1, id - from;
    if x >= 0 {
      SmallModulo(x, n);
    } else {
      SmallModulo(x + n, n);
      assert (x + n) % n == x % n;
    }
  }

  lemma SmallModulo(x: nat, n: nat)
    requires x < n
    ensures x % n == x
  {
  }

  lemma NextModulo(id: nat, modulus: nat)
    requires id < modulus
    ensures Increment(id, modulus) == (id + 1) % modulus
  {
    if id + 1 < modulus {
      SmallModulo(id + 1, modulus);
    }
  }

  // ----- every run of one worker thread -----

  datatype Event = New(free: nat) | Abandoned(free: nat) | Remove(id: nat)

  /** While some id is free a new association is given one, which it registers unless its constructor throws before;
      removal is of a registered association. */
  function Step(r: Registry, e: Event, modulus: nat): Registry
    requires 1 < modulus
  {
    match e
    case New(free) =>
      if r.next < modulus && 0 < free < modulus && free !in r.ids then
        var (t, id) := OnGetNext(r, free, modulus);
        OnRegister(t, id)
      else r
    case Abandoned(free) =>
      if r.next < modulus && 0 < free < modulus && free !in r.ids then OnGetNext(r, free, modulus).0 else r
    case Remove(id) => if id in r.ids && r.count > 0 then OnDeregister(r, id) else r
  }

  ghost predicate IsRun(states: seq<Registry>, events: seq<Event>, modulus: nat) {
    && 1 < modulus
    && |states| == |events| + 1
    && states[0] == Registry(0, {}, 0, false)
    && forall i :: 0 <= i < |events| ==> states[i + 1] == Step(states[i], events[i], modulus)
  }

  lemma {:induction false} RunInv(states: seq<Registry>, events: seq<Event>, modulus: nat, n: nat)
    requires IsRun(states, events, modulus) && n < |states|
    ensures Inv(states[n], modulus)
  {
    if n > 0 {
      RunInv(states, events, modulus, n - 1);
      var r, e := states[n - 1], events[n - 1];
      assert states[n - 1 + 1] == Step(r, e, modulus);
      match e
      case New(free) =>
        if 0 < free < modulus && free !in r.ids {
          GetNextInv(r, free, modulus);
          var (t, id) := OnGetNext(r, free, modulus);
          RegisterInv(t, id, modulus);
        }
      case Abandoned(free) =>
        if 0 < free < modulus && free !in r.ids {
          GetNextInv(r, free, modulus);
        }
      case Remove(id) =>
        if id in r.ids {
          DeregisterInv(r, id, modulus);
        }
    }
  }
}
