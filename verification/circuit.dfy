/**
 * The orchestrator's state and the parts of it that do not involve the
 * solve: node construction from the id counter, component registration
 * with deduplicated node tracking, and the layout of the unknowns (one per
 * non-ground node id, then one branch current per voltage source).
 */
module Circuits {
  import opened Options
  import opened Nodes
  import opened Components

  /**
   * `heap` is the arena of every node object constructed (a handle indexes
   * it), `nextId` the node-id counter, `parts` the registered components in
   * registration order, `nodes` the registered node handles in order of
   * first registration, and `time` the simulation clock.
   */
  datatype Circuit = Circuit(heap: seq<Node>, nextId: int, parts: seq<Component>, nodes: seq<NodeRef>, time: real)

  /** A fresh session: no nodes, no components, the counter at its start, the clock at 0. */
  function Empty(): Circuit {
    Circuit([], GroundId, [], [], 0.0)
  }

  predicate Distinct(ns: seq<NodeRef>) {
    forall a, b :: 0 <= a < b < |ns| ==> ns[a] != ns[b]
  }

  /** The terminal is a node the circuit tracks. */
  predicate Registered(c: Circuit, t: Option<NodeRef>) {
    t.Some? && t.value in c.nodes
  }

  /**
   * The representation invariant: registered handles point into the arena
   * and every terminal of a registered component is a registered node.
   */
  predicate Valid(c: Circuit) {
    && (forall q :: 0 <= q < |c.nodes| ==> c.nodes[q] < |c.heap|)
    && (forall q :: 0 <= q < |c.parts| ==> Registered(c, c.parts[q].node1) && Registered(c, c.parts[q].node2))
  }

  /**
   * Constructs a node in the arena: it takes the counter's value and 0 V,
   * the counter moves on by one, and nothing else changes; the new node is
   * not yet registered.
   */
  function CreateNode(c: Circuit): (r: (Circuit, NodeRef))
    ensures r.1 == |c.heap| && |r.0.heap| == |c.heap| + 1 && r.0.heap[..|c.heap|] == c.heap
    ensures r.0.heap[r.1].id == c.nextId && r.0.heap[r.1].voltage == 0.0
    ensures r.0.nextId == c.nextId + 1
    ensures r.0.nodes == c.nodes && r.0.parts == c.parts && r.0.time == c.time
    ensures Valid(c) ==> Valid(r.0) && r.1 !in c.nodes
  {
    var made := Create(c.nextId);
    (c.(heap := c.heap + [made.0], nextId := made.1), |c.heap|)
  }

  /** Puts the id counter back to its start, so that the next node constructed is ground. */
  function ResetIds(c: Circuit): (c': Circuit)
    ensures c'.nextId == GroundId
    ensures c'.heap == c.heap && c'.parts == c.parts && c'.nodes == c.nodes && c'.time == c.time
  {
    c.(nextId := GroundId)
  }

  /** After a reset, and in a fresh session, the first node constructed is ground and the next has id 1. */
  lemma FirstNodeIsGround(c: Circuit)
    ensures CreateNode(ResetIds(c)).0.heap[CreateNode(ResetIds(c)).1].id == 0
    ensures var c1 := CreateNode(Empty()).0;
      c1.heap[0].id == 0 && CreateNode(c1).0.heap[1].id == 1
  {
  }

  /** Tracks `h` unless it is already tracked. */
  function Register(nodes: seq<NodeRef>, h: NodeRef): (ns: seq<NodeRef>)
    ensures |ns| == |nodes| + (if h in nodes then 0 else 1)
    ensures ns[..|nodes|] == nodes
    ensures forall x :: x in ns <==> x in nodes || x == h
    ensures Distinct(nodes) ==> Distinct(ns)
  {
    if h in nodes then nodes else nodes + [h]
  }

  /**
   * Connects the component to `a` and `b` and appends it; each of the two
   * nodes is tracked unless it already is, so the node list keeps its
   * order, gains at most the two terminals, and stays free of duplicates.
   */
  function AddComponent(c: Circuit, p: Component, a: NodeRef, b: NodeRef): (c': Circuit)
    requires a < |c.heap| && b < |c.heap|
    ensures c'.parts == c.parts + [Connect(p, Some(a), Some(b))]
    ensures |c.nodes| <= |c'.nodes| <= |c.nodes| + 2 && c'.nodes[..|c.nodes|] == c.nodes
    ensures forall x :: x in c'.nodes <==> x in c.nodes || x == a || x == b
    ensures Distinct(c.nodes) ==> Distinct(c'.nodes)
    ensures Valid(c) ==> Valid(c')
    ensures c'.heap == c.heap && c'.nextId == c.nextId && c'.time == c.time
  {
    var ns := Register(Register(c.nodes, a), b);
    assert ns[..|c.nodes|] == Register(c.nodes, a)[..|Register(c.nodes, a)|][..|c.nodes|];
    c.(parts := c.parts + [Connect(p, Some(a), Some(b))], nodes := ns)
  }

  /** One `AddComponent` call: an element and the two nodes it goes between. */
  datatype Wiring = Wiring(elem: Element, a: NodeRef, b: NodeRef)

  /** The circuit after adding every wiring in order. */
  function Build(c: Circuit, ws: seq<Wiring>): (c': Circuit)
    requires forall w :: 0 <= w < |ws| ==> ws[w].a < |c.heap| && ws[w].b < |c.heap|
    ensures c'.heap == c.heap && |c'.parts| == |c.parts| + |ws|
    decreases |ws|
  {
    if |ws| == 0 then c
    else
      var m := |ws| - 1;
      AddComponent(Build(c, ws[..m]), Unconnected(ws[m].elem), ws[m].a, ws[m].b)
  }

  /** The terminals named by the wirings, in call order. */
  function Terminals(ws: seq<Wiring>): (t: seq<NodeRef>)
    ensures |t| == 2 * |ws|
    decreases |ws|
  {
    if |ws| == 0 then [] else Terminals(ws[..|ws| - 1]) + [ws[|ws| - 1].a, ws[|ws| - 1].b]
  }

  /** The position of the first occurrence of `x`. */
  function FirstIndex(s: seq<NodeRef>, x: NodeRef): (k: nat)
    requires x in s
    ensures k < |s| && s[k] == x && x !in s[..k]
  {
    if s[0] == x then 0 else assert x in s[1..]; 1 + FirstIndex(s[1..], x)
  }

  lemma {:induction false} FirstIndexAppend(s: seq<NodeRef>, t: seq<NodeRef>, x: NodeRef)
    requires x in s + t
    ensures x in s ==> FirstIndex(s + t, x) == FirstIndex(s, x)
    ensures x !in s ==> FirstIndex(s + t, x) == |s| + FirstIndex(t, x)
    decreases |s|
  {
    if |s| > 0 && s[0] != x {
      assert (s + t)[1..] == s[1..] + t;
      assert x in s <==> x in s[1..];
      FirstIndexAppend(s[1..], t, x);
    } else if |s| == 0 {
      assert s + t == t;
    }
  }

  /** The node list is duplicate-free, tracks exactly the terminals `t`, in order of first appearance. */
  ghost predicate FirstSeenOrder(ns: seq<NodeRef>, t: seq<NodeRef>) {
    && Distinct(ns)
    && (forall x :: x in ns <==> x in t)
    && (forall p1, p2 :: 0 <= p1 < p2 < |ns| ==> FirstIndex(t, ns[p1]) < FirstIndex(t, ns[p2]))
  }

  /** One more `AddComponent` keeps the node list in first-seen order of the longer terminal list. */
  lemma RegisterKeepsOrder(ns0: seq<NodeRef>, t0: seq<NodeRef>, a: NodeRef, b: NodeRef)
    requires FirstSeenOrder(ns0, t0)
    ensures FirstSeenOrder(Register(Register(ns0, a), b), t0 + [a, b])
  {
    var ns := Register(Register(ns0, a), b);
    var t := t0 + [a, b];
    forall x | x in t0
      ensures FirstIndex(t, x) == FirstIndex(t0, x) && FirstIndex(t, x) < |t0|
    {
      FirstIndexAppend(t0, [a, b], x);
    }
    forall x | x in t && x !in t0
      ensures FirstIndex(t, x) == |t0| + (if x == a then 0 else 1)
    {
      FirstIndexAppend(t0, [a, b], x);
    }
    assert ns[..|ns0|] == ns0;
    forall p1, p2 | 0 <= p1 < p2 < |ns|
      ensures FirstIndex(t, ns[p1]) < FirstIndex(t, ns[p2])
    {
      if p2 < |ns0| {
        assert ns[p1] == ns0[p1] && ns[p2] == ns0[p2];
      } else if p1 < |ns0| {
        assert ns[p1] == ns0[p1];
        assert ns[p2] !in ns0;
      } else {
        assert ns[p1] == a && ns[p2] == b;
      }
    }
  }

  /**
   * Registering the wirings from an empty node list tracks exactly the
   * nodes they name, each once, in the order of their first appearance.
   */
  lemma {:induction false} RegistrationOrder(c: Circuit, ws: seq<Wiring>)
    requires c.nodes == []
    requires forall w :: 0 <= w < |ws| ==> ws[w].a < |c.heap| && ws[w].b < |c.heap|
    ensures FirstSeenOrder(Build(c, ws).nodes, Terminals(ws))
    decreases |ws|
  {
    if |ws| > 0 {
      var m := |ws| - 1;
      RegistrationOrder(c, ws[..m]);
      RegisterKeepsOrder(Build(c, ws[..m]).nodes, Terminals(ws[..m]), ws[m].a, ws[m].b);
    }
  }

  /** The largest id among the registered nodes, and 0 when none is positive. */
  function MaxId(heap: seq<Node>, nodes: seq<NodeRef>): (m: int)
    requires forall q :: 0 <= q < |nodes| ==> nodes[q] < |heap|
    ensures m >= 0
    ensures forall q :: 0 <= q < |nodes| ==> heap[nodes[q]].id <= m
    ensures m == 0 || exists q :: 0 <= q < |nodes| && heap[nodes[q]].id == m
    decreases |nodes|
  {
    if |nodes| == 0 then 0
    else
      var m := MaxId(heap, nodes[..|nodes| - 1]);
      var id := heap[nodes[|nodes| - 1]].id;
      if id > m then id else m
  }

  /**
   * The number of node-voltage unknowns, `N - 1` where `N` is one more than
   * the largest registered id: every registered node with a positive id
   * `d` owns unknown `d - 1` below it, and the largest such id owns the last.
   */
  function Base(c: Circuit): (b: nat)
    requires Valid(c)
    ensures forall q :: 0 <= q < |c.nodes| ==> c.heap[c.nodes[q]].id <= b
    ensures b == 0 || exists q :: 0 <= q < |c.nodes| && c.heap[c.nodes[q]].id == b
  {
    VoltageRows(MaxId(c.heap, c.nodes) + 1)
  }

  /** `N - 1` for a node count `N`, and 0 when `N` is not positive. */
  function VoltageRows(n: int): nat {
    if n > 0 then n - 1 else 0
  }

  /** The size of the system: node unknowns, then one branch current per voltage source. */
  function Size(c: Circuit): (s: nat)
    requires Valid(c)
    ensures s == Base(c) + SourceCount(c.parts)
  {
    Base(c) + SourceCount(c.parts)
  }

  /** The unknown reserved for the branch current of a source at position `q`. */
  function SourceIndex(c: Circuit, q: nat): (k: nat)
    requires Valid(c) && q <= |c.parts|
    ensures Base(c) <= k <= Size(c)
    ensures q < |c.parts| && c.parts[q].elem.VSource? ==> k < Size(c)
  {
    SourceCountPrefix(c.parts, q, |c.parts|);
    assert c.parts[..|c.parts|] == c.parts;
    Base(c) + SourceCount(c.parts[..q])
  }

  /**
   * The reserved indices: the k-th source in registration order gets
   * `Base + k`, so every source's index lies in `[Base, Size)` and the
   * indices strictly increase with registration order.
   */
  lemma SourceIndices(c: Circuit)
    requires Valid(c)
    ensures forall q :: 0 <= q < |c.parts| && c.parts[q].elem.VSource? ==>
      Base(c) <= SourceIndex(c, q) < Size(c)
    ensures forall q1, q2 :: 0 <= q1 < q2 < |c.parts| && c.parts[q1].elem.VSource? ==>
      SourceIndex(c, q1) < SourceIndex(c, q2)
  {
    forall q | 0 <= q < |c.parts| && c.parts[q].elem.VSource?
      ensures SourceIndex(c, q) < Size(c)
    {
      SourceCountPrefix(c.parts, q, |c.parts|);
      assert c.parts[..|c.parts|] == c.parts;
    }
    forall q1, q2 | 0 <= q1 < q2 < |c.parts| && c.parts[q1].elem.VSource?
      ensures SourceIndex(c, q1) < SourceIndex(c, q2)
    {
      SourceCountPrefix(c.parts, q1, q2);
    }
  }

  /** Every terminal of every part refers to the arena and has index below `lim`. */
  predicate Fits(heap: seq<Node>, parts: seq<Component>, lim: int) {
    forall q :: 0 <= q < |parts| ==>
      && Wired(heap, parts[q])
      && Index(heap, parts[q].node1) < lim
      && Index(heap, parts[q].node2) < lim
  }

  /** A list that fits below `lim` fits below any larger bound, and so does each of its prefixes. */
  lemma FitsWithin(heap: seq<Node>, parts: seq<Component>, lim: int, lim': int, n: nat)
    requires Fits(heap, parts, lim) && lim <= lim' && n <= |parts|
    ensures Fits(heap, parts, lim') && Fits(heap, parts[..n], lim) && Fits(heap, parts[..n], lim')
  {
    assert forall q :: 0 <= q < n ==> parts[..n][q] == parts[q];
  }

  /** In a valid circuit every terminal index lies below the first branch-current unknown. */
  lemma TerminalsBelowBase(c: Circuit)
    requires Valid(c)
    ensures Fits(c.heap, c.parts, Base(c))
  {
    forall q | 0 <= q < |c.parts|
      ensures Wired(c.heap, c.parts[q])
      ensures Index(c.heap, c.parts[q].node1) < Base(c) && Index(c.heap, c.parts[q].node2) < Base(c)
    {
      var p := c.parts[q];
      assert Registered(c, p.node1) && Registered(c, p.node2);
      var q1 :| 0 <= q1 < |c.nodes| && c.nodes[q1] == p.node1.value;
      var q2 :| 0 <= q2 < |c.nodes| && c.nodes[q2] == p.node2.value;
      assert c.heap[c.nodes[q1]].id <= Base(c);
      assert c.heap[c.nodes[q2]].id <= Base(c);
    }
  }
}
