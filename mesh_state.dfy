/**
 * The state of the whole simulated mesh as a sequence of nodes indexed by
 * node id, with the wiring the mesh builds, the transfer phase of a node's
 * packet processing, one simulation step over the nodes in dictionary order,
 * and the invariant every reachable state satisfies: packets are conserved,
 * never duplicated, never stranded, and have only ever moved closer to
 * their destination.
 */
module MeshState {
  import opened Wrappers
  import opened Grid
  import opened Routing
  import opened CoreTypes
  import opened MirandaNode

  // ---------------------------------------------------------------------
  // Wiring
  // ---------------------------------------------------------------------

  /** The row-major id y * X + x of position (x, y), as the connect loops compute it. */
  function LinkId(X: nat, x: nat, y: nat): nat
  {
    y * X + x
  }

  /** Neighbour ids of the node at (x, y) of a mesh: none past the outward edges. */
  function MeshLinks(X: nat, Y: nat, x: nat, y: nat): PerDirection<Option<nat>>
  {
    PerDirection(
      if y > 0 then Some(LinkId(X, x, y - 1)) else None,
      if y < Y - 1 then Some(LinkId(X, x, y + 1)) else None,
      if x < X - 1 then Some(LinkId(X, x + 1, y)) else None,
      if x > 0 then Some(LinkId(X, x - 1, y)) else None,
      None)
  }

  /** Neighbour ids of the node at (x, y) of a torus: every edge wraps to the opposite one. */
  function TorusLinks(X: nat, Y: nat, x: nat, y: nat): PerDirection<Option<nat>>
    requires x < X && y < Y
  {
    PerDirection(
      Some(LinkId(X, x, if y > 0 then y - 1 else Y - 1)),
      Some(LinkId(X, x, if y < Y - 1 then y + 1 else 0)),
      Some(LinkId(X, if x < X - 1 then x + 1 else 0, y)),
      Some(LinkId(X, if x > 0 then x - 1 else X - 1, y)),
      None)
  }

  function Links(t: TopologyType, X: nat, Y: nat, c: Coord): PerDirection<Option<nat>>
    requires InGrid(X, Y, c)
  {
    match t
    case Mesh => MeshLinks(X, Y, c.x, c.y)
    case Torus => TorusLinks(X, Y, c.x, c.y)
  }

  /** The id of the neighbouring position in direction d, if there is one. */
  function NeighborId(t: TopologyType, X: nat, Y: nat, c: Coord, d: Direction): Option<nat>
    requires InGrid(X, Y, c)
  {
    match Neighbor(t, X, Y, c, d)
    case None => None
    case Some(m) => Some(IdOf(X, m))
  }

  /** The ids the mesh wires are exactly the ids of the neighbouring positions. */
  lemma LinksAreNeighbors(t: TopologyType, X: nat, Y: nat, c: Coord, d: Direction)
    requires InGrid(X, Y, c)
    ensures Links(t, X, Y, c).Get(d) == NeighborId(t, X, Y, c, d)
  {
  }

  /** Every wired neighbour id names a node of the grid, at the neighbouring position. */
  lemma LinksInGrid(t: TopologyType, X: nat, Y: nat, c: Coord, d: Direction)
    requires InGrid(X, Y, c)
    ensures Links(t, X, Y, c).Get(d).Some? ==>
              && Links(t, X, Y, c).Get(d).value < X * Y
              && CoordOf(X, Links(t, X, Y, c).Get(d).value) == Neighbor(t, X, Y, c, d).value
  {
    LinksAreNeighbors(t, X, Y, c, d);
    NeighborInGrid(t, X, Y, c, d);
    if Neighbor(t, X, Y, c, d).Some? {
      IdOfBounds(X, Y, Neighbor(t, X, Y, c, d).value);
    }
  }

  /** Every neighbour reference of every node is a valid index. */
  predicate LinksInRange(ns: seq<Node>)
  {
    forall i, d :: 0 <= i < |ns| && ns[i].neighbors.Get(d).Some? ==> ns[i].neighbors.Get(d).value < |ns|
  }

  /** Fields the transfer phase never touches: all counters and tallies. */
  predicate SameCounters(a: Node, b: Node)
  {
    a.packetsReceived == b.packetsReceived && a.packetsForwarded == b.packetsForwarded &&
    a.bytesReceived == b.bytesReceived && a.bytesForwarded == b.bytesForwarded &&
    a.trafficByDirection == b.trafficByDirection && a.totalHopCount == b.totalHopCount
  }

  /** Two node tables agree on every node's identity, wiring and send-side counters. */
  predicate SameSetups(a: seq<Node>, b: seq<Node>)
  {
    |a| == |b| && forall j :: 0 <= j < |a| ==> SameSetup(a[j], b[j])
  }

  lemma SameSetupsLinks(a: seq<Node>, b: seq<Node>)
    requires SameSetups(a, b) && LinksInRange(a)
    ensures LinksInRange(b)
  {
    forall i, d | 0 <= i < |b| && b[i].neighbors.Get(d).Some?
      ensures b[i].neighbors.Get(d).value < |b|
    {
      assert SameSetup(a[i], b[i]);
    }
  }

  // ---------------------------------------------------------------------
  // The transfer phase and one simulation step
  // ---------------------------------------------------------------------

  /**
   * Transfer in direction d from node i: if the output queue is non-empty,
   * d is not LOCAL and a neighbour is wired, the queue's front packet moves
   * to the end of the neighbour's input queue with one more hop; otherwise
   * nothing happens (a packet facing a missing neighbour stays queued).
   */
  function TransferDir(ns: seq<Node>, i: nat, d: Direction): (r: seq<Node>)
    requires i < |ns| && LinksInRange(ns)
    ensures |r| == |ns|
  {
    if |ns[i].outputQueues.Get(d)| > 0 && d != Local && ns[i].neighbors.Get(d).Some? then
      MovePacket(ns, i, ns[i].neighbors.Get(d).value, d)
    else ns
  }

  /** A transfer touches only queues: every node keeps its setup and its counters. */
  lemma TransferDirSame(ns: seq<Node>, i: nat, d: Direction)
    requires i < |ns| && LinksInRange(ns)
    ensures SameSetups(ns, TransferDir(ns, i, d))
    ensures forall j :: 0 <= j < |ns| ==> SameCounters(ns[j], TransferDir(ns, i, d)[j])
  {
  }

  /** Node n with the front packet of its output queue in direction d taken off. */
  function PopOutput(n: Node, d: Direction): (r: Node)
    requires |n.outputQueues.Get(d)| > 0
    ensures r.outputQueues.Get(d) == n.outputQueues.Get(d)[1..]
    ensures forall e :: e != d ==> r.outputQueues.Get(e) == n.outputQueues.Get(e)
  {
    n.(outputQueues := n.outputQueues.Set(d, n.outputQueues.Get(d)[1..]))
  }

  /** Node n with packet p appended to its input queue. */
  function PushInput(n: Node, p: Packet): Node
  {
    n.(inputQueue := n.inputQueue + [p])
  }

  /** Packet p after one more hop. */
  function Hopped(p: Packet): Packet
  {
    p.(hopCount := p.hopCount + 1)
  }

  /** The front packet of node i's queue in direction d moves, one hop further, to node m's input queue. */
  function MovePacket(ns: seq<Node>, i: nat, m: nat, d: Direction): seq<Node>
    requires i < |ns| && m < |ns| && |ns[i].outputQueues.Get(d)| > 0
  {
    var ns1 := ns[i := PopOutput(ns[i], d)];
    ns1[m := PushInput(ns1[m], Hopped(ns[i].outputQueues.Get(d)[0]))]
  }

  /** The transfer phase over the first k directions, in declaration order. */
  function TransferAll(ns: seq<Node>, i: nat, k: nat): (r: seq<Node>)
    requires i < |ns| && LinksInRange(ns) && k <= |AllDirections|
    ensures |r| == |ns| && LinksInRange(r)
  {
    if k == 0 then ns
    else
      var prev := TransferAll(ns, i, k - 1);
      var r := TransferDir(prev, i, AllDirections[k - 1]);
      TransferDirSame(prev, i, AllDirections[k - 1]);
      SameSetupsLinks(prev, r);
      r
  }

  /** One node's packet processing: the routing phase, then the transfer phase. */
  function ProcessNode(ns: seq<Node>, i: nat): (r: seq<Node>)
    requires i < |ns| && LinksInRange(ns)
    ensures |r| == |ns| && LinksInRange(r)
  {
    var routed := ns[i := RouteAll(ns[i])];
    SameSetupsLinks(ns, routed);
    TransferAll(routed, i, |AllDirections|)
  }

  predicate OrderInRange(order: seq<nat>, size: nat)
  {
    forall k :: 0 <= k < |order| ==> order[k] < size
  }

  /** Processing the nodes order[0], ..., order[k-1] one after the other. */
  function ProcessOrder(ns: seq<Node>, order: seq<nat>, k: nat): (r: seq<Node>)
    requires LinksInRange(ns) && OrderInRange(order, |ns|) && k <= |order|
    ensures |r| == |ns| && LinksInRange(r)
  {
    if k == 0 then ns else ProcessNode(ProcessOrder(ns, order, k - 1), order[k - 1])
  }

  /** `steps` simulation steps, each processing every node once in the given order. */
  function Steps(ns: seq<Node>, order: seq<nat>, steps: nat): (r: seq<Node>)
    requires LinksInRange(ns) && OrderInRange(order, |ns|)
    ensures |r| == |ns| && LinksInRange(r)
  {
    if steps == 0 then ns else ProcessOrder(Steps(ns, order, steps - 1), order, |order|)
  }

  // ---------------------------------------------------------------------
  // The order in which nodes are created and visited
  // ---------------------------------------------------------------------

  /** Ids of column x, top to bottom. */
  function Column(X: nat, Y: nat, x: nat): seq<nat>
  {
    seq(Y, y => y * X + x)
  }

  /** Insertion order of the node dictionary: column by column, each column top to bottom. */
  function VisitOrder(X: nat, Y: nat, columns: nat): seq<nat>
  {
    if columns == 0 then [] else VisitOrder(X, Y, columns - 1) + Column(X, Y, columns - 1)
  }

  lemma {:induction false} VisitOrderContents(X: nat, Y: nat, columns: nat, k: nat)
    requires columns <= X && k < |VisitOrder(X, Y, columns)|
    ensures |VisitOrder(X, Y, columns)| == columns * Y
    ensures var c := CoordOf(X, VisitOrder(X, Y, columns)[k]);
            && VisitOrder(X, Y, columns)[k] == IdOf(X, c) && InGrid(X, Y, c) && c.x < columns
            && c == Coord(k / Y, k % Y)
  {
    var v := VisitOrder(X, Y, columns);
    VisitOrderLength(X, Y, columns);
    var prev := VisitOrder(X, Y, columns - 1);
    VisitOrderLength(X, Y, columns - 1);
    if k < |prev| {
      VisitOrderContents(X, Y, columns - 1, k);
    } else {
      var y := k - |prev|;
      assert v[k] == y * X + (columns - 1);
      IdOfBounds(X, Y, Coord(columns - 1, y));
      DivModUnique(k, Y, columns - 1, y);
    }
  }

  lemma {:induction false} VisitOrderLength(X: nat, Y: nat, columns: nat)
    ensures |VisitOrder(X, Y, columns)| == columns * Y
  {
    if columns > 0 {
      VisitOrderLength(X, Y, columns - 1);
    }
  }

  /** Every id in the visit order names a node of the grid. */
  lemma VisitOrderInRange(X: nat, Y: nat)
    ensures |VisitOrder(X, Y, X)| == X * Y
    ensures OrderInRange(VisitOrder(X, Y, X), X * Y)
  {
    var v := VisitOrder(X, Y, X);
    VisitOrderLength(X, Y, X);
    forall k | 0 <= k < |v|
      ensures v[k] < X * Y
    {
      VisitOrderContents(X, Y, X, k);
      IdOfBounds(X, Y, CoordOf(X, v[k]));
    }
  }

  /** No id is visited twice in one step. */
  lemma VisitOrderDistinct(X: nat, Y: nat, k1: nat, k2: nat)
    requires k1 < k2 < |VisitOrder(X, Y, X)|
    ensures VisitOrder(X, Y, X)[k1] != VisitOrder(X, Y, X)[k2]
  {
    var v := VisitOrder(X, Y, X);
    VisitOrderContents(X, Y, X, k1);
    VisitOrderContents(X, Y, X, k2);
  }

  /** Every node of the grid is visited in a step. */
  lemma VisitOrderComplete(X: nat, Y: nat, id: nat)
    requires id < X * Y
    ensures id in VisitOrder(X, Y, X)
  {
    assert X > 0;
    var c := CoordOf(X, id);
    CoordOfBounds(X, Y, id);
    var k := c.x * Y + c.y;
    var v := VisitOrder(X, Y, X);
    assert k < |v| by {
      MulMonotone(c.x + 1, X, Y);
      VisitOrderLength(X, Y, X);
    }
    assert k / Y == c.x && k % Y == c.y by {
      DivModUnique(k, Y, c.x, c.y);
    }
    VisitOrderContents(X, Y, X, k);
    assert v[k] == IdOf(X, c) == id;
  }
}
