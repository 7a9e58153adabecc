/**
 * Circuit nodes. A node takes its identity from a counter at construction
 * and starts at 0 V; id 0 is ground. Components refer to nodes by handle,
 * the model's stand-in for a `Node*`, into an arena of node objects.
 */
module Nodes {
  import opened Options

  /** A handle to a node object in the arena. */
  type NodeRef = nat

  datatype Node = Node(id: int, voltage: real)

  /** The counter's initial value: the first node constructed is ground. */
  const GroundId: int := 0

  /** Constructing a node: it takes the counter's value and 0 V, and the counter moves on by one. */
  function Create(nextId: int): (r: (Node, int))
    ensures r.0.id == nextId && r.1 == nextId + 1
    ensures r.0.voltage == 0.0
  {
    (Node(nextId, 0.0), nextId + 1)
  }

  /** `k` nodes constructed one after another, starting from counter value `nextId`. */
  function CreateMany(nextId: int, k: nat): (r: (seq<Node>, int))
    ensures |r.0| == k && r.1 == nextId + k
    ensures forall a :: 0 <= a < k ==> r.0[a].id == nextId + a && r.0[a].voltage == 0.0
    ensures forall a, b :: 0 <= a < b < k ==> r.0[a].id < r.0[b].id
    decreases k
  {
    if k == 0 then ([], nextId)
    else
      var prev := CreateMany(nextId, k - 1);
      var made := Create(prev.1);
      (prev.0 + [made.0], made.1)
  }

  /**
   * The row and column a terminal occupies in the system: `id - 1` for a
   * node with a positive id, and -1, meaning "no contribution", for ground,
   * for a non-positive id and for a missing node.
   */
  function Index(heap: seq<Node>, t: Option<NodeRef>): (i: int)
    requires t.Some? ==> t.value < |heap|
    ensures i >= -1
    ensures i >= 0 <==> t.Some? && heap[t.value].id > 0
    ensures i >= 0 ==> i + 1 == heap[t.value].id
  {
    if t.Some? && heap[t.value].id > 0 then heap[t.value].id - 1 else -1
  }
}
