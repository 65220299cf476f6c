/** The lifetime of routers, transports, producers and consumers: the cascade of closes that runs through
    ownership and pipe links, and the tables that routers and transports keep of what they own. */
module Lifecycle {
  import opened Common

  type Id = nat
  datatype Kind = Router | Transport | Producer | Consumer

  /** The objects made so far: who owns whom, and which objects close each other through 'close' observers
      (the two ends of a pipe, and a pipe consumer with its pipe producer). */
  datatype Graph = Graph(kind: map<Id, Kind>, owner: map<Id, Id>, peers: map<Id, set<Id>>)

  ghost predicate Leaf(k: Kind) { k.Producer? || k.Consumer? }

  ghost predicate WellFormed(g: Graph) {
    OwnersOk(g.kind, g.owner) && PeersOk(g.kind, g.peers)
  }

  ghost predicate OwnersOk(kind: map<Id, Kind>, owner: map<Id, Id>) {
    && (forall x :: x in owner <==> x in kind && kind[x] != Router)
    && (forall x :: x in owner ==> owner[x] in kind && kind[owner[x]] == OwnerKind(kind[x]))
  }

  ghost predicate PeersOk(kind: map<Id, Kind>, peers: map<Id, set<Id>>) {
    && peers.Keys == kind.Keys
    && (forall x, y :: x in kind && y in peers[x] ==> y in kind && SameLevel(kind[x], kind[y]))
  }

  function OwnerKind(k: Kind): Kind { if k.Transport? then Router else Transport }

  ghost predicate SameLevel(a: Kind, b: Kind) {
    !a.Router? && !b.Router? && (a.Transport? <==> b.Transport?)
  }

  /** Closing `x` closes `y` next. */
  ghost predicate Edge(g: Graph, x: Id, y: Id) {
    x in g.kind && y in g.kind && ((y in g.owner && g.owner[y] == x) || (x in g.peers && y in g.peers[x]))
  }

  ghost predicate EdgeClosed(g: Graph, s: set<Id>) {
    forall x, y :: x in s && Edge(g, x, y) ==> y in s
  }

  /** What is reachable from `x` by ownership and links: the least set with `x` that no edge leaves. */
  ghost function Reach(g: Graph, x: Id): set<Id> {
    set y | y in g.kind && forall s :: EdgeClosed(g, s) && x in s ==> y in s
  }

  lemma ReachClosed(g: Graph, x: Id)
    requires x in g.kind
    ensures x in Reach(g, x) && EdgeClosed(g, Reach(g, x))
    ensures forall s :: EdgeClosed(g, s) && x in s ==> Reach(g, x) <= s
  {
    forall y, z | y in Reach(g, x) && Edge(g, y, z)
      ensures z in Reach(g, x)
    {
      forall s | EdgeClosed(g, s) && x in s
        ensures z in s
      {
        assert y in s;
      }
    }
  }

  /** Which objects are closed, the observer 'close' events so far, and the tables: the transports that are in
      their router's table, the producers and consumers that are in their transport's, and the producers that
      are in the index of their transport's router. */
  datatype Tables = Tables(closed: set<Id>, observed: seq<Id>, transports: set<Id>, producers: set<Id>,
                           consumers: set<Id>, index: set<Id>)

  /** An object that is not closed is in every table it belongs to. */
  ghost predicate Registered(g: Graph, s: Tables, x: Id)
    requires x in g.kind
  {
    match g.kind[x]
    case Router => true
    case Transport => x in s.transports
    case Producer => x in s.producers && x in s.index
    case Consumer => x in s.consumers
  }

  /** The owner of an object; a router stands for itself. */
  function Up(g: Graph, x: Id): Id { if x in g.owner then g.owner[x] else x }

  ghost predicate HasKind(g: Graph, x: Id, k: Kind) { x in g.kind && g.kind[x] == k }

  /** A closed object is in no table, unless a close that will remove it is still under way. */
  ghost predicate Sound(g: Graph, s: Tables, busy: set<Id>) {
    && (forall t :: t in s.transports ==>
          HasKind(g, t, Transport) && (t in s.closed ==> t in busy || Up(g, t) in busy))
    && (forall p :: p in s.producers ==>
          HasKind(g, p, Producer) && (p in s.closed ==> Up(g, p) in busy))
    && (forall c :: c in s.consumers ==>
          HasKind(g, c, Consumer) && (c in s.closed ==> Up(g, c) in busy))
    && (forall p :: p in s.index ==>
          HasKind(g, p, Producer) && (p in s.closed ==> Up(g, p) in busy || Up(g, Up(g, p)) in busy))
  }

  /** The invariant while the closes of `busy` are under way. */
  ghost predicate Inv(g: Graph, s: Tables, busy: set<Id>) {
    && WellFormed(g)
    && busy <= s.closed <= g.kind.Keys
    && NoDuplicates(s.observed)
    && (forall x :: x in s.observed ==> x in s.closed)
    && (forall x :: x in s.closed && x !in busy ==> x in s.observed)
    && (forall x, y :: x in s.closed && x !in busy && Edge(g, x, y) ==> y in s.closed)
    && (forall x :: x in g.kind && x !in s.closed ==> Registered(g, s, x))
    && Sound(g, s, busy)
  }

  /** What any close does: it closes objects of `scope` only, fires observers of nothing that was closed, and
      takes entries out of the tables. */
  ghost predicate Grew(a: Tables, b: Tables, scope: set<Id>) {
    && a.closed <= b.closed <= a.closed + scope
    && a.observed <= b.observed
    && (forall x :: x in a.closed && x in b.observed ==> x in a.observed)
    && b.transports <= a.transports && b.producers <= a.producers
    && b.consumers <= a.consumers && b.index <= a.index
  }

  lemma GrewTransitive(a: Tables, b: Tables, c: Tables, scope: set<Id>)
    requires Grew(a, b, scope) && Grew(b, c, scope)
    ensures Grew(a, c, scope)
  {
  }

  // ----- the steps of a close -----

  function Mark(s: Tables, x: Id): Tables { s.(closed := s.closed + {x}) }

  /** The '@close' event of a producer or consumer: it leaves its tables. */
  function Unregister(s: Tables, x: Id): Tables {
    s.(producers := s.producers - {x}, consumers := s.consumers - {x}, index := s.index - {x})
  }

  function Fire(s: Tables, x: Id): Tables { s.(observed := s.observed + [x]) }

  lemma MarkInv(g: Graph, s: Tables, busy: set<Id>, x: Id)
    requires Inv(g, s, busy) && x in g.kind && x !in s.closed
    requires Leaf(g.kind[x]) ==> Up(g, x) in busy
    ensures Inv(g, Mark(s, x), busy + {x}) && x !in s.observed
    ensures g.kind[x] == Transport ==> ClosedUnindexed(g, Mark(s, x), busy, x)
  {
    MarkSound(g, s, busy, x);
    MarkRegistered(g, s, Mark(s, x), x);
  }

  lemma MarkSound(g: Graph, s: Tables, busy: set<Id>, x: Id)
    requires Sound(g, s, busy) && (x in g.kind && Leaf(g.kind[x]) ==> Up(g, x) in busy)
    ensures Sound(g, Mark(s, x), busy + {x})
  {
  }

  /** Closing `x` leaves every other open object registered. */
  lemma MarkRegistered(g: Graph, s: Tables, t: Tables, x: Id)
    requires forall y :: y in g.kind && y !in s.closed ==> Registered(g, s, y)
    requires t == Mark(s, x) || t == Unregister(Mark(s, x), x)
    ensures forall y :: y in g.kind && y !in t.closed ==> Registered(g, t, y)
  {
    forall y | y in g.kind && y !in t.closed
      ensures Registered(g, t, y)
    {
      assert Registered(g, s, y);
    }
  }

  lemma MarkLeafInv(g: Graph, s: Tables, busy: set<Id>, x: Id)
    requires Inv(g, s, busy) && x in g.kind && x !in s.closed && Leaf(g.kind[x])
    ensures Inv(g, Unregister(Mark(s, x), x), busy + {x}) && x !in s.observed
  {
    UnregisterSound(g, s, busy, x);
    MarkRegistered(g, s, Unregister(Mark(s, x), x), x);
  }

  lemma UnregisterSound(g: Graph, s: Tables, busy: set<Id>, x: Id)
    requires Sound(g, s, busy) && x in g.kind && Leaf(g.kind[x])
    ensures Sound(g, Unregister(Mark(s, x), x), busy + {x})
  {
  }

  lemma FireInv(g: Graph, s: Tables, busy: set<Id>, x: Id)
    requires Inv(g, s, busy) && x in busy && x !in s.observed
    ensures Inv(g, Fire(s, x), busy)
  {
  }

  /** Entries of closed objects may be taken out of the tables. */
  lemma ShrinkInv(g: Graph, a: Tables, b: Tables, busy: set<Id>)
    requires Inv(g, a, busy) && Grew(a, b, {}) && b.observed == a.observed
    requires forall x :: x in a.transports - b.transports ==> x in a.closed
    requires forall x :: x in a.producers - b.producers ==> x in a.closed
    requires forall x :: x in a.consumers - b.consumers ==> x in a.closed
    requires forall x :: x in a.index - b.index ==> x in a.closed
    ensures Inv(g, b, busy)
  {
    assert b.closed == a.closed;
    forall x | x in g.kind && x !in b.closed
      ensures Registered(g, b, x)
    {
      assert Registered(g, a, x);
    }
  }

  function Unindex(s: Tables, p: Id): Tables { s.(index := s.index - {p}) }

  lemma TellRouter(g: Graph, a: Tables, s: Tables, busy: set<Id>, scope: set<Id>, p: Id)
    requires Inv(g, s, busy) && p in s.closed && Grew(a, s, scope)
    ensures Inv(g, Unindex(s, p), busy) && Grew(a, Unindex(s, p), scope) && Done(Unindex(s, p), {p}, true)
  {
    ShrinkInv(g, s, Unindex(s, p), busy);
  }

  /** The '@close' event of a transport. */
  function DropTransport(s: Tables, t: Id): Tables { s.(transports := s.transports - {t}) }

  lemma DropTransportInv(g: Graph, s: Tables, busy: set<Id>, scope: set<Id>, t: Id)
    requires Inv(g, s, busy) && t in s.closed
    ensures Inv(g, DropTransport(s, t), busy) && Grew(s, DropTransport(s, t), scope)
  {
    ShrinkInv(g, s, DropTransport(s, t), busy);
  }

  function ClearProducers(g: Graph, s: Tables, t: Id): Tables {
    s.(producers := set p | p in s.producers && Up(g, p) != t)
  }

  function ClearConsumers(g: Graph, s: Tables, t: Id): Tables {
    s.(consumers := set c | c in s.consumers && Up(g, c) != t)
  }

  lemma ClearProducersInv(g: Graph, s: Tables, busy: set<Id>, scope: set<Id>, t: Id)
    requires Inv(g, s, busy) && forall p :: p in s.producers && Up(g, p) == t ==> p in s.closed
    ensures Inv(g, ClearProducers(g, s, t), busy) && Grew(s, ClearProducers(g, s, t), scope)
    ensures NoProducers(g, ClearProducers(g, s, t), t)
  {
    ShrinkInv(g, s, ClearProducers(g, s, t), busy);
    forall p | HasKind(g, p, Producer) && Up(g, p) == t
      ensures p in s.closed
    {
      assert p !in s.closed ==> Registered(g, s, p);
    }
  }

  lemma ClearConsumersInv(g: Graph, s: Tables, busy: set<Id>, scope: set<Id>, t: Id)
    requires Inv(g, s, busy) && forall c :: c in s.consumers && Up(g, c) == t ==> c in s.closed
    ensures Inv(g, ClearConsumers(g, s, t), busy) && Grew(s, ClearConsumers(g, s, t), scope)
    ensures NoConsumers(g, ClearConsumers(g, s, t), t)
  {
    ShrinkInv(g, s, ClearConsumers(g, s, t), busy);
    forall c | HasKind(g, c, Consumer) && Up(g, c) == t
      ensures c in s.closed
    {
      assert c !in s.closed ==> Registered(g, s, c);
    }
  }

  /** All producers of a transport are closed and gone from its table. */
  ghost predicate NoProducers(g: Graph, s: Tables, t: Id) {
    forall p :: HasKind(g, p, Producer) && Up(g, p) == t ==> p in s.closed && p !in s.producers
  }

  ghost predicate NoConsumers(g: Graph, s: Tables, t: Id) {
    forall c :: HasKind(g, c, Consumer) && Up(g, c) == t ==> c in s.closed && c !in s.consumers
  }

  /** No table entry depends on the close of `x` still being under way. */
  ghost predicate Cleared(g: Graph, s: Tables, busy: set<Id>, x: Id) {
    && (forall t :: t in s.transports ==> Up(g, t) != x && (t == x ==> Up(g, x) in busy))
    && (forall p :: p in s.producers ==> Up(g, p) != x)
    && (forall c :: c in s.consumers ==> Up(g, c) != x)
    && (forall p :: p in s.index ==> Up(g, Up(g, p)) != x && (Up(g, p) == x ==> Up(g, x) in busy))
  }

  /** A close is complete once everything that `x` leads to is closed. */
  lemma FinishInv(g: Graph, s: Tables, busy: set<Id>, x: Id)
    requires Inv(g, s, busy + {x}) && x !in busy && x in s.observed
    requires forall y :: Edge(g, x, y) ==> y in s.closed
    requires Cleared(g, s, busy, x)
    ensures Inv(g, s, busy)
  {
    FinishSound(g, s, busy, x);
  }

  lemma FinishSound(g: Graph, s: Tables, busy: set<Id>, x: Id)
    requires Sound(g, s, busy + {x}) && Cleared(g, s, busy, x)
    ensures Sound(g, s, busy)
  {
  }

  lemma FinishLeaf(g: Graph, s: Tables, busy: set<Id>, x: Id)
    requires Inv(g, s, busy + {x}) && x !in busy && x in s.observed && x in g.kind && Leaf(g.kind[x])
    requires Done(s, g.peers[x], false)
    ensures Inv(g, s, busy)
  {
    LeafCleared(g, s, busy, x);
    LeafEdges(g, s, x);
    FinishInv(g, s, busy, x);
  }

  lemma LeafCleared(g: Graph, s: Tables, busy: set<Id>, x: Id)
    requires WellFormed(g) && Sound(g, s, busy + {x}) && x in g.kind && Leaf(g.kind[x])
    ensures Cleared(g, s, busy, x)
  {
    forall y | y in s.transports || y in s.producers || y in s.consumers || y in s.index
      ensures y in g.kind && Up(g, y) != x && Up(g, Up(g, y)) != x
    {
      assert y in g.kind;
      UpKind(g, y);
    }
    forall t | t in s.transports
      ensures t != x
    {
      assert HasKind(g, t, Transport);
    }
  }

  /** A producer or consumer owns nothing. */
  lemma UpKind(g: Graph, x: Id)
    requires WellFormed(g) && x in g.kind
    ensures Up(g, x) in g.kind && !Leaf(g.kind[Up(g, x)]) && !Leaf(g.kind[Up(g, Up(g, x))])
    ensures g.kind[x] != Router ==> Up(g, x) != x
  {
  }

  lemma LeafEdges(g: Graph, s: Tables, x: Id)
    requires WellFormed(g) && x in g.kind && Leaf(g.kind[x]) && Done(s, g.peers[x], false)
    ensures forall y :: Edge(g, x, y) ==> y in s.closed
  {
  }

  /** What is left of a transport's producers in the index is for its router to clear. */
  ghost predicate Unindexed(g: Graph, s: Tables, busy: set<Id>, t: Id) {
    forall p :: p in s.index && Up(g, p) == t ==> Up(g, t) in busy
  }

  ghost predicate ClosedUnindexed(g: Graph, s: Tables, busy: set<Id>, t: Id) {
    forall p :: p in s.index && Up(g, p) == t && p in s.closed ==> Up(g, t) in busy
  }

  ghost predicate Dropped(g: Graph, s: Tables, busy: set<Id>, t: Id) {
    t in s.transports ==> Up(g, t) in busy
  }

  lemma FinishTransport(g: Graph, s: Tables, busy: set<Id>, t: Id)
    requires Inv(g, s, busy + {t}) && t !in busy && t in s.observed && HasKind(g, t, Transport)
    requires Done(s, g.peers[t], false)
    requires NoProducers(g, s, t) && NoConsumers(g, s, t) && Unindexed(g, s, busy, t) && Dropped(g, s, busy, t)
    ensures Inv(g, s, busy)
  {
    TransportCleared(g, s, busy, t);
    TransportEdges(g, s, t);
    FinishInv(g, s, busy, t);
  }

  lemma TransportCleared(g: Graph, s: Tables, busy: set<Id>, t: Id)
    requires WellFormed(g) && Sound(g, s, busy + {t}) && HasKind(g, t, Transport)
    requires NoProducers(g, s, t) && NoConsumers(g, s, t) && Unindexed(g, s, busy, t) && Dropped(g, s, busy, t)
    ensures Cleared(g, s, busy, t)
  {
  }

  lemma TransportEdges(g: Graph, s: Tables, t: Id)
    requires WellFormed(g) && HasKind(g, t, Transport) && Done(s, g.peers[t], false)
    requires NoProducers(g, s, t) && NoConsumers(g, s, t)
    ensures forall y :: Edge(g, t, y) ==> y in s.closed
  {
  }

  lemma GrewKeeps(g: Graph, a: Tables, b: Tables, scope: set<Id>, busy: set<Id>, t: Id)
    requires Grew(a, b, scope)
    ensures NoProducers(g, a, t) ==> NoProducers(g, b, t)
    ensures NoConsumers(g, a, t) ==> NoConsumers(g, b, t)
    ensures Unindexed(g, a, busy, t) ==> Unindexed(g, b, busy, t)
    ensures Dropped(g, a, busy, t) ==> Dropped(g, b, busy, t)
  {
  }

  /** Closing `x` and firing its observers, seen as growth of the tables. */
  lemma MarkFireGrew(a: Tables, b: Tables, c: Tables, x: Id, scope: set<Id>)
    requires x !in a.closed && x !in a.observed && x in scope
    requires Grew(Mark(a, x), b, scope) && Grew(Fire(b, x), c, scope)
    ensures Grew(a, c, scope)
  {
  }

  lemma ObservedStays(a: Tables, b: Tables, scope: set<Id>, x: Id)
    requires Grew(a, b, scope) && x in a.observed
    ensures x in b.observed
  {
    var i :| 0 <= i < |a.observed| && a.observed[i] == x;
    assert b.observed[i] == x;
  }

  /** All of these are closed and, if `told`, gone from the index. */
  ghost predicate Done(s: Tables, xs: set<Id>, told: bool) {
    forall x :: x in xs ==> x in s.closed && (told ==> x !in s.index)
  }

  lemma DoneNext(a: Tables, b: Tables, scope: set<Id>, all: set<Id>, todo: set<Id>, x: Id, told: bool)
    requires Done(a, all - todo, told) && Grew(a, b, scope) && x in b.closed && (told ==> x !in b.index)
    ensures Done(b, all - (todo - {x}), told)
  {
  }

  /** Closing leaves fewer objects open, or as many. */
  lemma FewerOpen(g: Graph, a: Tables, b: Tables, scope: set<Id>)
    requires Grew(a, b, scope)
    ensures g.kind.Keys - b.closed <= g.kind.Keys - a.closed
  {
  }

  ghost predicate ChildrenOf(g: Graph, xs: set<Id>, k: Kind, t: Id) {
    forall x :: x in xs ==> HasKind(g, x, k) && Up(g, x) == t
  }

  /** Objects of the scope that `close` can be called on one by one. */
  ghost predicate Closable(g: Graph, scope: set<Id>, xs: set<Id>) {
    forall y :: y in xs ==> y in scope && y in g.kind && g.kind[y] != Router
  }

  lemma PeersInScope(g: Graph, scope: set<Id>, x: Id)
    requires WellFormed(g) && EdgeClosed(g, scope) && x in scope && x in g.kind
    ensures Closable(g, scope, g.peers[x])
  {
    forall y | y in g.peers[x]
      ensures y in scope && y in g.kind && g.kind[y] != Router
    {
      assert Edge(g, x, y);
    }
  }

  lemma ChildInScope(g: Graph, scope: set<Id>, xs: set<Id>, k: Kind, t: Id, x: Id)
    requires WellFormed(g) && EdgeClosed(g, scope) && t in scope && t in g.kind
    requires ChildrenOf(g, xs, k, t) && x in xs && k != Router
    ensures x in scope && x in g.kind && g.kind[x] == k && Up(g, x) == t
  {
    assert Edge(g, t, x);
  }

  lemma OwnProducers(g: Graph, s: Tables, busy: set<Id>, all: set<Id>, t: Id)
    requires Inv(g, s, busy + {t}) && all == set p | p in s.producers && Up(g, p) == t
    ensures ChildrenOf(g, all, Producer, t)
  {
  }

  lemma OwnConsumers(g: Graph, s: Tables, busy: set<Id>, all: set<Id>, t: Id)
    requires Inv(g, s, busy) && all == set c | c in s.consumers && Up(g, c) == t
    ensures ChildrenOf(g, all, Consumer, t)
  {
  }

  lemma ConsumersDone(g: Graph, a: Tables, b: Tables, scope: set<Id>, all: set<Id>, t: Id)
    requires Grew(a, b, scope) && all == set c | c in a.consumers && Up(g, c) == t
    requires Done(b, all, false)
    ensures forall c :: c in b.consumers && Up(g, c) == t ==> c in b.closed
  {
    forall c | c in b.consumers && Up(g, c) == t
      ensures c in b.closed
    {
      assert c in all;
    }
  }

  lemma ProducersDone(g: Graph, a: Tables, b: Tables, scope: set<Id>, busy: set<Id>, all: set<Id>, t: Id,
                      byRouter: bool)
    requires Inv(g, a, busy + {t}) && Inv(g, b, busy + {t}) && Grew(a, b, scope)
    requires all == set p | p in a.producers && Up(g, p) == t
    requires byRouter ==> Up(g, t) in busy
    requires ClosedUnindexed(g, a, busy, t)
    requires Done(b, all, !byRouter)
    ensures forall p :: p in b.producers && Up(g, p) == t ==> p in b.closed
    ensures Unindexed(g, b, busy, t)
  {
    forall p | p in b.index && Up(g, p) == t
      ensures Up(g, t) in busy
    {
      if p !in a.closed {
        assert HasKind(g, p, Producer) && Registered(g, a, p);
        assert p in all;
      }
    }
    forall p | p in b.producers && Up(g, p) == t
      ensures p in b.closed
    {
      assert p in all;
    }
  }

  // ----- routers -----

  /** The router's own tables are emptied: what was in them is closed by then. */
  function ClearRouter(g: Graph, s: Tables, r: Id): Tables {
    s.(transports := (set t | t in s.transports && Up(g, t) != r),
       index := (set p | p in s.index && Up(g, Up(g, p)) != r))
  }

  lemma ClearRouterInv(g: Graph, s: Tables, scope: set<Id>, r: Id)
    requires Inv(g, s, {r}) && HasKind(g, r, Router)
    requires forall t :: t in s.transports && Up(g, t) == r ==> t in s.closed
    ensures Inv(g, ClearRouter(g, s, r), {r}) && Grew(s, ClearRouter(g, s, r), scope)
    ensures forall t :: HasKind(g, t, Transport) && Up(g, t) == r ==> t in s.closed
  {
    forall t | HasKind(g, t, Transport) && Up(g, t) == r
      ensures t in s.closed && t != r
    {
      assert t !in s.closed ==> Registered(g, s, t);
    }
    forall p | p in s.index && Up(g, Up(g, p)) == r
      ensures p in s.closed
    {
      assert Edge(g, Up(g, p), p);
    }
    ShrinkInv(g, s, ClearRouter(g, s, r), {r});
  }

  lemma FinishRouter(g: Graph, s: Tables, r: Id)
    requires Inv(g, s, {r}) && r in s.observed && HasKind(g, r, Router) && Done(s, g.peers[r], false)
    requires forall t :: HasKind(g, t, Transport) && Up(g, t) == r ==> t in s.closed
    requires forall t :: t in s.transports ==> Up(g, t) != r
    requires forall p :: p in s.index ==> Up(g, Up(g, p)) != r
    ensures Inv(g, s, {})
  {
    assert {} + {r} == {r};
    RouterCleared(g, s, r);
    RouterEdges(g, s, r);
    FinishInv(g, s, {}, r);
  }

  lemma RouterCleared(g: Graph, s: Tables, r: Id)
    requires WellFormed(g) && Sound(g, s, {r}) && HasKind(g, r, Router)
    requires forall t :: t in s.transports ==> Up(g, t) != r
    requires forall p :: p in s.index ==> Up(g, Up(g, p)) != r
    ensures Cleared(g, s, {}, r)
  {
  }

  lemma RouterEdges(g: Graph, s: Tables, r: Id)
    requires WellFormed(g) && HasKind(g, r, Router) && Done(s, g.peers[r], false)
    requires forall t :: HasKind(g, t, Transport) && Up(g, t) == r ==> t in s.closed
    ensures forall y :: Edge(g, r, y) ==> y in s.closed
  {
  }

  /** A complete cascade closes exactly what is reachable. */
  lemma CascadeExact(g: Graph, a: Tables, b: Tables, x: Id)
    requires Inv(g, a, {}) && Inv(g, b, {}) && x in g.kind && x in b.closed && Grew(a, b, Reach(g, x))
    ensures b.closed == a.closed + Reach(g, x)
    ensures a.observed <= b.observed && NoDuplicates(b.observed) && forall y :: y in b.observed <==> y in b.closed
  {
    ReachClosed(g, x);
    assert EdgeClosed(g, b.closed);
  }

  // ----- the index of a router -----

  function TransportsOf(g: Graph, s: Tables, r: Id): set<Id> { set t | t in s.transports && Up(g, t) == r }
  function ProducersOf(g: Graph, s: Tables, t: Id): set<Id> { set p | p in s.producers && Up(g, p) == t }
  function IndexOf(g: Graph, s: Tables, r: Id): set<Id> { set p | p in s.index && Up(g, Up(g, p)) == r }

  /** Whenever no close is under way, the producers that a router can look up are those in the tables of the
      transports in its own table, and all of them, and these transports, are open. */
  lemma IndexAgreement(g: Graph, s: Tables, r: Id, p: Id)
    requires Inv(g, s, {})
    ensures p in IndexOf(g, s, r) <==> exists t :: t in TransportsOf(g, s, r) && p in ProducersOf(g, s, t)
    ensures p in IndexOf(g, s, r) ==> p !in s.closed && Up(g, p) !in s.closed
    ensures TransportsOf(g, s, r) !! s.closed
  {
    if p in IndexOf(g, s, r) {
      var t := Up(g, p);
      UpKind(g, p);
      assert Registered(g, s, p);
      assert Edge(g, t, p);
      assert Registered(g, s, t);
      assert t in TransportsOf(g, s, r) && p in ProducersOf(g, s, t);
    }
    forall t | t in TransportsOf(g, s, r) && p in ProducersOf(g, s, t)
      ensures p in IndexOf(g, s, r)
    {
      assert Registered(g, s, p);
    }
  }

  // ----- making objects and links -----

  function AddObject(g: Graph, x: Id, k: Kind, owner: Option<Id>): Graph {
    Graph(g.kind[x := k], if owner.Some? then g.owner[x := owner.value] else g.owner, g.peers[x := {}])
  }

  function Register(s: Tables, x: Id, k: Kind): Tables {
    match k
    case Router => s
    case Transport => s.(transports := s.transports + {x})
    case Producer => s.(producers := s.producers + {x}, index := s.index + {x})
    case Consumer => s.(consumers := s.consumers + {x})
  }

  /** A new object with an owner of the right kind. */
  ghost predicate Placeable(g: Graph, x: Id, k: Kind, owner: Option<Id>) {
    && x !in g.kind
    && (owner.Some? <==> k != Router)
    && (owner.Some? ==> HasKind(g, owner.value, OwnerKind(k)))
  }

  ghost predicate OwnerOpen(s: Tables, owner: Option<Id>) {
    owner.Some? ==> owner.value !in s.closed
  }

  ghost predicate CanAdd(g: Graph, s: Tables, x: Id, k: Kind, owner: Option<Id>) {
    Placeable(g, x, k, owner) && OwnerOpen(s, owner)
  }

  /** Making an object keeps the invariant exactly when its owner has not been closed in the meantime. */
  lemma AddInv(g: Graph, s: Tables, x: Id, k: Kind, owner: Option<Id>)
    requires Inv(g, s, {}) && Placeable(g, x, k, owner)
    ensures Inv(AddObject(g, x, k, owner), Register(s, x, k), {}) <==> OwnerOpen(s, owner)
  {
    if OwnerOpen(s, owner) {
      AddWellFormed(g, s, x, k, owner);
      AddEdges(g, s, x, k, owner);
      AddRegistered(g, s, x, k, owner);
      AddSound(g, s, x, k, owner);
    } else {
      assert Edge(AddObject(g, x, k, owner), owner.value, x) && x !in s.closed;
    }
  }

  /** A producer whose reply arrives after its transport was closed is then in the index of its router, but in the
      table of no transport of that router. */
  lemma LateReplyMisindexed(g: Graph, s: Tables, x: Id, t: Id)
    requires Inv(g, s, {}) && Placeable(g, x, Producer, Some(t)) && t in s.closed
    ensures var h, u := AddObject(g, x, Producer, Some(t)), Register(s, x, Producer);
            x in IndexOf(h, u, Up(g, t)) && forall r, y :: y in TransportsOf(h, u, r) ==> x !in ProducersOf(h, u, y)
  {
    var h, u := AddObject(g, x, Producer, Some(t)), Register(s, x, Producer);
    assert Up(h, x) == t && Up(h, t) == Up(g, t);
    assert t !in u.transports;
  }

  lemma AddWellFormed(g: Graph, s: Tables, x: Id, k: Kind, owner: Option<Id>)
    requires WellFormed(g) && CanAdd(g, s, x, k, owner)
    ensures WellFormed(AddObject(g, x, k, owner))
  {
    var h := AddObject(g, x, k, owner);
    forall y, z | y in h.kind && z in h.peers[y]
      ensures z in h.kind && SameLevel(h.kind[y], h.kind[z])
    {
      assert y != x && z in g.peers[y];
    }
  }

  lemma AddEdges(g: Graph, s: Tables, x: Id, k: Kind, owner: Option<Id>)
    requires WellFormed(g) && CanAdd(g, s, x, k, owner) && s.closed <= g.kind.Keys
    requires forall y, z :: y in s.closed && Edge(g, y, z) ==> z in s.closed
    ensures forall y, z :: y in s.closed && Edge(AddObject(g, x, k, owner), y, z) ==> z in s.closed
  {
    forall y, z | y in s.closed && Edge(AddObject(g, x, k, owner), y, z)
      ensures z in s.closed
    {
      assert y != x && z != x;
      assert Edge(g, y, z);
    }
  }

  lemma AddRegistered(g: Graph, s: Tables, x: Id, k: Kind, owner: Option<Id>)
    requires forall y :: y in g.kind && y !in s.closed ==> Registered(g, s, y)
    ensures var h, t := AddObject(g, x, k, owner), Register(s, x, k);
            forall y :: y in h.kind && y !in t.closed ==> Registered(h, t, y)
  {
    var h, t := AddObject(g, x, k, owner), Register(s, x, k);
    forall y | y in h.kind && y !in t.closed
      ensures Registered(h, t, y)
    {
      if y != x {
        assert Registered(g, s, y);
      }
    }
  }

  lemma AddSound(g: Graph, s: Tables, x: Id, k: Kind, owner: Option<Id>)
    requires Sound(g, s, {}) && x !in g.kind && s.closed <= g.kind.Keys
    ensures Sound(AddObject(g, x, k, owner), Register(s, x, k), {})
  {
    var h := AddObject(g, x, k, owner);
    assert forall y, j :: HasKind(g, y, j) ==> HasKind(h, y, j);
    assert HasKind(h, x, k) && x !in s.closed;
  }

  function AddLink(g: Graph, a: Id, b: Id): Graph
    requires a in g.peers && b in g.peers
  {
    g.(peers := g.peers[a := g.peers[a] + {b}][b := g.peers[b] + {a}])
  }

  /** Linking two objects keeps the invariant exactly when both are open or both are closed: an object that is closed
      already will not emit its close event to the handler of the other one any more. */
  lemma LinkInv(g: Graph, s: Tables, a: Id, b: Id)
    requires Inv(g, s, {}) && a in g.kind && b in g.kind && a != b && SameLevel(g.kind[a], g.kind[b])
    ensures Inv(AddLink(g, a, b), s, {}) <==> (a in s.closed <==> b in s.closed)
  {
    LinkWellFormed(g, a, b);
    SameOwners(g, AddLink(g, a, b), s);
    if a in s.closed <==> b in s.closed {
      LinkEdges(g, s, a, b);
    } else {
      assert Edge(AddLink(g, a, b), a, b) && Edge(AddLink(g, a, b), b, a);
    }
  }

  lemma LinkWellFormed(g: Graph, a: Id, b: Id)
    requires WellFormed(g) && a in g.kind && b in g.kind && a != b && SameLevel(g.kind[a], g.kind[b])
    ensures WellFormed(AddLink(g, a, b))
  {
    PeerAdded(g.kind, g.peers, a, b);
    PeerAdded(g.kind, g.peers[a := g.peers[a] + {b}], b, a);
  }

  lemma PeerAdded(kind: map<Id, Kind>, peers: map<Id, set<Id>>, a: Id, b: Id)
    requires PeersOk(kind, peers) && a in kind && b in kind && SameLevel(kind[a], kind[b])
    ensures PeersOk(kind, peers[a := peers[a] + {b}])
  {
  }

  lemma LinkEdges(g: Graph, s: Tables, a: Id, b: Id)
    requires WellFormed(g) && a in g.kind && b in g.kind && (a in s.closed <==> b in s.closed)
    requires forall x, y :: x in s.closed && Edge(g, x, y) ==> y in s.closed
    ensures forall x, y :: x in s.closed && Edge(AddLink(g, a, b), x, y) ==> y in s.closed
  {
    forall x, y | x in s.closed && Edge(AddLink(g, a, b), x, y)
      ensures y in s.closed
    {
      assert Edge(g, x, y) || (x == a && y == b) || (x == b && y == a);
    }
  }

  /** Tables depend on kinds and owners only. */
  lemma SameOwners(g: Graph, h: Graph, s: Tables)
    requires h.kind == g.kind && h.owner == g.owner
    requires Sound(g, s, {}) && forall x :: x in g.kind && x !in s.closed ==> Registered(g, s, x)
    ensures Sound(h, s, {}) && forall x :: x in h.kind && x !in s.closed ==> Registered(h, s, x)
  {
    assert forall x, k :: HasKind(h, x, k) <==> HasKind(g, x, k);
    forall x | x in h.kind && x !in s.closed
      ensures Registered(h, s, x)
    {
      assert Registered(g, s, x);
    }
  }

  class Session {
    var g: Graph
    var s: Tables

    ghost predicate Valid()
      reads this
    {
      Inv(g, s, {})
    }

    constructor ()
      ensures Valid() && g == Graph(map[], map[], map[]) && s == Tables({}, [], {}, {}, {}, {})
    {
      g := Graph(map[], map[], map[]);
      s := Tables({}, [], {}, {}, {}, {});
    }

    /** Producer and Consumer `close` and, by their transport, `transportClosed`: only the former leaves the tables by
        an event. The `producerclose` notification of a Consumer does the same as its `close`. */
    method CloseLeaf(x: Id, byTransport: bool, ghost busy: set<Id>, ghost scope: set<Id>)
      requires Inv(g, s, busy) && x in g.kind && Leaf(g.kind[x]) && (byTransport ==> Up(g, x) in busy)
      requires EdgeClosed(g, scope) && x in scope
      modifies this`s
      ensures Inv(g, s, busy) && Grew(old(s), s, scope) && x in s.closed
      decreases g.kind.Keys - s.closed, 0, 0
    {
      if x in s.closed {
        return;
      }
      if byTransport {
        MarkInv(g, s, busy, x);
        s := Mark(s, x);
      } else {
        MarkLeafInv(g, s, busy, x);
        s := Unregister(Mark(s, x), x);
      }
      ghost var marked := s;
      FireClose(x, busy + {x}, scope);
      MarkFireGrew(old(s), marked, s, x, scope);
      FinishLeaf(g, s, busy, x);
    }

    /** The observer 'close' event: it is logged, and the handlers of pipe links close the peers. */
    method FireClose(x: Id, ghost busy: set<Id>, ghost scope: set<Id>)
      requires Inv(g, s, busy) && x in busy && x !in s.observed
      requires EdgeClosed(g, scope) && x in scope
      modifies this`s
      ensures Inv(g, s, busy) && Grew(Fire(old(s), x), s, scope)
      ensures x in s.observed && Done(s, g.peers[x], false)
      decreases g.kind.Keys - s.closed, 1
    {
      FireInv(g, s, busy, x);
      s := Fire(s, x);
      ghost var fired := s;
      ClosePeers(x, busy, scope);
      ObservedStays(fired, s, scope, x);
    }

    method ClosePeers(x: Id, ghost busy: set<Id>, ghost scope: set<Id>)
      requires Inv(g, s, busy) && x in busy && EdgeClosed(g, scope) && x in scope
      modifies this`s
      ensures Inv(g, s, busy) && Grew(old(s), s, scope) && Done(s, g.peers[x], false)
      decreases g.kind.Keys - s.closed, 1, 0
    {
      PeersInScope(g, scope, x);
      CloseEach(g.peers[x], busy, scope);
    }

    method CloseEach(all: set<Id>, ghost busy: set<Id>, ghost scope: set<Id>)
      requires Inv(g, s, busy) && EdgeClosed(g, scope) && Closable(g, scope, all)
      modifies this`s
      ensures Inv(g, s, busy) && Grew(old(s), s, scope) && Done(s, all, false)
      decreases g.kind.Keys - s.closed, 0, 2
    {
      var todo := all;
      while todo != {}
        invariant Inv(g, s, busy) && Grew(old(s), s, scope) && todo <= all
        invariant Done(s, all - todo, false)
        decreases todo
      {
        var y :| y in todo;
        assert y in all;
        ghost var before := s;
        FewerOpen(g, old(s), s, scope);
        ClosePeer(y, busy, scope);
        GrewTransitive(old(s), before, s, scope);
        DoneNext(before, s, scope, all, todo, y, false);
        todo := todo - {y};
      }
      assert all - todo == all;
    }

    /** The `close` of a transport, producer or consumer. */
    method ClosePeer(y: Id, ghost busy: set<Id>, ghost scope: set<Id>)
      requires Inv(g, s, busy) && y in g.kind && g.kind[y] != Router && EdgeClosed(g, scope) && y in scope
      modifies this`s
      ensures Inv(g, s, busy) && Grew(old(s), s, scope) && y in s.closed
      decreases g.kind.Keys - s.closed, 0, 1
    {
      if g.kind[y].Transport? {
        CloseTransport(y, false, busy, scope);
      } else {
        CloseLeaf(y, false, busy, scope);
      }
    }

    /** Transport `close` and, by its router, `routerClosed`: only the former tells the router. */
    method CloseTransport(t: Id, byRouter: bool, ghost busy: set<Id>, ghost scope: set<Id>)
      requires Inv(g, s, busy) && HasKind(g, t, Transport) && (byRouter ==> Up(g, t) in busy)
      requires EdgeClosed(g, scope) && t in scope
      modifies this`s
      ensures Inv(g, s, busy) && Grew(old(s), s, scope) && t in s.closed
      decreases g.kind.Keys - s.closed, 0, 0
    {
      if t in s.closed {
        return;
      }
      MarkInv(g, s, busy, t);
      s := Mark(s, t);
      CloseOwned(t, byRouter, busy, scope);
      ghost var quiet := s;
      FireClose(t, busy + {t}, scope);
      MarkFireGrew(old(s), quiet, s, t, scope);
      GrewKeeps(g, Fire(quiet, t), s, scope, busy, t);
      FinishTransport(g, s, busy, t);
    }

    /** The part of a transport's close that precedes its observer event. */
    method CloseOwned(t: Id, byRouter: bool, ghost busy: set<Id>, ghost scope: set<Id>)
      requires Inv(g, s, busy + {t}) && HasKind(g, t, Transport) && (byRouter ==> Up(g, t) in busy)
      requires t in s.closed && EdgeClosed(g, scope) && t in scope
      requires ClosedUnindexed(g, s, busy, t)
      modifies this`s
      ensures Inv(g, s, busy + {t}) && Grew(old(s), s, scope)
      ensures NoProducers(g, s, t) && NoConsumers(g, s, t) && Unindexed(g, s, busy, t) && Dropped(g, s, busy, t)
      decreases g.kind.Keys - s.closed, 2
    {
      CloseProducers(t, byRouter, busy, scope);
      ghost var middle := s;
      CloseConsumers(t, busy + {t}, scope);
      GrewTransitive(old(s), middle, s, scope);
      GrewKeeps(g, middle, s, scope, busy, t);
      if !byRouter {
        ghost var last := s;
        DropTransportInv(g, s, busy + {t}, scope, t);
        s := DropTransport(s, t);
        GrewTransitive(old(s), last, s, scope);
        GrewKeeps(g, last, s, scope, busy, t);
      }
    }

    method CloseProducers(t: Id, byRouter: bool, ghost busy: set<Id>, ghost scope: set<Id>)
      requires Inv(g, s, busy + {t}) && HasKind(g, t, Transport) && (byRouter ==> Up(g, t) in busy)
      requires EdgeClosed(g, scope) && t in scope
      requires ClosedUnindexed(g, s, busy, t)
      modifies this`s
      ensures Inv(g, s, busy + {t}) && Grew(old(s), s, scope) && NoProducers(g, s, t) && Unindexed(g, s, busy, t)
      decreases g.kind.Keys - s.closed, 1
    {
      var all := set p | p in s.producers && Up(g, p) == t;
      OwnProducers(g, s, busy, all, t);
      CloseAll(all, Producer, t, !byRouter, busy + {t}, scope);
      ProducersDone(g, old(s), s, scope, busy, all, t, byRouter);
      ghost var last := s;
      ClearProducersInv(g, s, busy + {t}, scope, t);
      s := ClearProducers(g, s, t);
      GrewTransitive(old(s), last, s, scope);
      GrewKeeps(g, last, s, scope, busy, t);
    }

    /** The loop over the producers or the consumers of a closing transport. */
    method CloseAll(all: set<Id>, ghost k: Kind, ghost t: Id, tell: bool, ghost busy: set<Id>, ghost scope: set<Id>)
      requires Inv(g, s, busy) && HasKind(g, t, Transport) && t in busy && EdgeClosed(g, scope) && t in scope
      requires ChildrenOf(g, all, k, t) && Leaf(k)
      modifies this`s
      ensures Inv(g, s, busy) && Grew(old(s), s, scope) && Done(s, all, tell)
      decreases g.kind.Keys - s.closed, 0, 2
    {
      var todo := all;
      while todo != {}
        invariant Inv(g, s, busy) && Grew(old(s), s, scope) && todo <= all
        invariant Done(s, all - todo, tell)
        decreases todo
      {
        var x :| x in todo;
        ChildInScope(g, scope, all, k, t, x);
        ghost var before := s;
        FewerOpen(g, old(s), s, scope);
        CloseByTransport(x, tell, busy, scope);
        GrewTransitive(old(s), before, s, scope);
        DoneNext(before, s, scope, all, todo, x, tell);
        todo := todo - {x};
      }
      assert all - {} == all;
    }

    /** A producer or consumer is closed by its transport, which may tell the router. */
    method CloseByTransport(p: Id, tell: bool, ghost busy: set<Id>, ghost scope: set<Id>)
      requires Inv(g, s, busy) && p in g.kind && Leaf(g.kind[p]) && Up(g, p) in busy
      requires EdgeClosed(g, scope) && p in scope
      modifies this`s
      ensures Inv(g, s, busy) && Grew(old(s), s, scope) && p in s.closed && (tell ==> p !in s.index)
      decreases g.kind.Keys - s.closed, 0, 1
    {
      CloseLeaf(p, true, busy, scope);
      if tell {
        TellRouter(g, old(s), s, busy, scope, p);
        s := Unindex(s, p);
      }
    }

    method CloseConsumers(t: Id, ghost busy: set<Id>, ghost scope: set<Id>)
      requires Inv(g, s, busy) && HasKind(g, t, Transport) && t in busy && EdgeClosed(g, scope) && t in scope
      modifies this`s
      ensures Inv(g, s, busy) && Grew(old(s), s, scope) && NoConsumers(g, s, t)
      decreases g.kind.Keys - s.closed, 1
    {
      var all := set c | c in s.consumers && Up(g, c) == t;
      OwnConsumers(g, s, busy, all, t);
      CloseAll(all, Consumer, t, false, busy, scope);
      ghost var last := s;
      ConsumersDone(g, old(s), s, scope, all, t);
      ClearConsumersInv(g, s, busy, scope, t);
      s := ClearConsumers(g, s, t);
      GrewTransitive(old(s), last, s, scope);
    }

    method CloseRouter(r: Id, ghost scope: set<Id>)
      requires Valid() && HasKind(g, r, Router) && EdgeClosed(g, scope) && r in scope
      modifies this`s
      ensures Valid() && Grew(old(s), s, scope) && r in s.closed
    {
      if r in s.closed {
        return;
      }
      assert {} + {r} == {r};
      MarkInv(g, s, {}, r);
      s := Mark(s, r);
      CloseTransports(r, scope);
      ghost var quiet := s;
      FireClose(r, {r}, scope);
      MarkFireGrew(old(s), quiet, s, r, scope);
      FinishRouter(g, s, r);
    }

    method CloseTransports(r: Id, ghost scope: set<Id>)
      requires Inv(g, s, {r}) && HasKind(g, r, Router) && EdgeClosed(g, scope) && r in scope
      modifies this`s
      ensures Inv(g, s, {r}) && Grew(old(s), s, scope)
      ensures forall t :: HasKind(g, t, Transport) && Up(g, t) == r ==> t in s.closed
      ensures forall t :: t in s.transports ==> Up(g, t) != r
      ensures forall p :: p in s.index ==> Up(g, Up(g, p)) != r
    {
      var all := set t | t in s.transports && Up(g, t) == r;
      assert ChildrenOf(g, all, Transport, r);
      var todo := all;
      while todo != {}
        invariant Inv(g, s, {r}) && Grew(old(s), s, scope) && todo <= all
        invariant Done(s, all - todo, false)
        decreases todo
      {
        var t :| t in todo;
        ChildInScope(g, scope, all, Transport, r, t);
        ghost var before := s;
        FewerOpen(g, old(s), s, scope);
        CloseTransport(t, true, {r}, scope);
        GrewTransitive(old(s), before, s, scope);
        DoneNext(before, s, scope, all, todo, t, false);
        todo := todo - {t};
      }
      assert all - {} == all;
      ghost var last := s;
      forall t | t in s.transports && Up(g, t) == r
        ensures t in s.closed
      {
        assert t in all;
      }
      ClearRouterInv(g, s, scope, r);
      s := ClearRouter(g, s, r);
      GrewTransitive(old(s), last, s, scope);
    }

    /** Closing any object: the cascade ends, closes exactly what is reachable by ownership and links, and the
        observers of every closed object, and no other, have fired exactly once since the session began. */
    method Close(x: Id)
      requires Valid() && x in g.kind
      modifies this`s
      ensures Valid() && s.closed == old(s.closed) + Reach(g, x)
      ensures old(s.observed) <= s.observed && NoDuplicates(s.observed)
      ensures forall y :: y in s.observed <==> y in s.closed
    {
      ghost var scope := Reach(g, x);
      ReachClosed(g, x);
      if g.kind[x] == Router {
        CloseRouter(x, scope);
      } else {
        ClosePeer(x, {}, scope);
      }
      CascadeExact(g, old(s), s, x);
    }

    /** A new router, or the reply to making a transport, producer or consumer, whose owner may be closed by then. */
    method Create(x: Id, k: Kind, owner: Option<Id>)
      requires Valid() && Placeable(g, x, k, owner)
      modifies this
      ensures g == AddObject(old(g), x, k, owner) && s == Register(old(s), x, k)
      ensures Valid() <==> OwnerOpen(s, owner)
    {
      AddInv(g, s, x, k, owner);
      g, s := AddObject(g, x, k, owner), Register(s, x, k);
    }

    /** The two ends of a pipe, or a pipe consumer and its pipe producer, observe each other's close. */
    method Link(a: Id, b: Id)
      requires Valid() && a in g.kind && b in g.kind && a != b && SameLevel(g.kind[a], g.kind[b])
      modifies this`g
      ensures g == AddLink(old(g), a, b)
      ensures Valid() <==> (a in s.closed <==> b in s.closed)
    {
      LinkInv(g, s, a, b);
      g := AddLink(g, a, b);
    }
  }
}
