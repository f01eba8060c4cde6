/**
 * The earlier 4x4 mesh simulator, as values: nodes keyed by their (x, y)
 * coordinate, each with an input queue, one output queue per direction and
 * three packet counters, plus the statistics registry the nodes report to
 * when statistics are enabled (`on`).  Every operation of the simulator is a
 * function from one such state to the next; the class in SimpleMesh runs
 * the same steps in place.
 *
 * Unlike the hybrid simulator, a node here counts a packet as forwarded when
 * it hands it to a neighbour, not when it routes it into an output queue.
 */
module SimpleNet {
  import opened Wrappers
  import opened Grid
  import opened Routing
  import opened StatNames
  import opened MockStatistics

  /** The side of the grid. */
  const Size: nat := 4

  /** The metrics each node registers, in registration order. */
  const SentStat := "packets_sent"
  const ReceivedStat := "packets_received"
  const ForwardedStat := "packets_forwarded"
  const HopStat := "hop_count"
  const QueueStat := "queue_length"

  datatype SPacket = SPacket(source: Coord, destination: Coord, data: string, packetId: nat, hopCount: nat)

  datatype MeshNode = MeshNode(pos: Coord, neighbors: PerDirection<Option<Coord>>,
                               inputQueue: seq<SPacket>, outputQueues: PerDirection<seq<SPacket>>,
                               packetsSent: nat, packetsReceived: nat, packetsForwarded: nat)

  /** A freshly created node: no neighbours, empty queues, zero counters. */
  function NewMeshNode(c: Coord): MeshNode
  {
    MeshNode(c, Uniform(None), [], Uniform([]), 0, 0, 0)
  }

  /** The neighbours `_connect_nodes` gives the node at c: one per direction whose adjacent coordinate is inside the grid. */
  function SimpleLinks(c: Coord): PerDirection<Option<Coord>>
  {
    PerDirection(
      if c.y > 0 then Some(Coord(c.x, c.y - 1)) else None,
      if c.y < Size - 1 then Some(Coord(c.x, c.y + 1)) else None,
      if c.x < Size - 1 then Some(Coord(c.x + 1, c.y)) else None,
      if c.x > 0 then Some(Coord(c.x - 1, c.y)) else None,
      None)
  }

  /** The 4x4 wiring is the mesh wiring of the grid: a neighbour exists exactly away from the outward edge. */
  lemma SimpleLinksAreMesh(c: Coord, d: Direction)
    requires InGrid(Size, Size, c)
    ensures SimpleLinks(c).Get(d) == Neighbor(Mesh, Size, Size, c, d)
    ensures d != Local ==> (SimpleLinks(c).Get(d).Some? <==> !AtEdge(Size, Size, c, d))
  {
    NeighborPresence(Mesh, Size, Size, c, d);
  }

  /** Links are symmetric: a's EAST is b iff b's WEST is a, a's SOUTH is b iff b's NORTH is a. */
  lemma SimpleLinksSymmetric(a: Coord, b: Coord, d: Direction)
    requires InGrid(Size, Size, a) && InGrid(Size, Size, b) && d != Local
    ensures SimpleLinks(a).Get(d) == Some(b) <==> SimpleLinks(b).Get(Opposite(d)) == Some(a)
  {
    SimpleLinksAreMesh(a, d);
    SimpleLinksAreMesh(b, Opposite(d));
    NeighborSymmetric(Mesh, Size, Size, a, b, d);
  }

  /** Dictionary order of the nodes: x outer, y inner. */
  function InsertionOrder(): (r: seq<Coord>)
    ensures |r| == Size * Size
  {
    seq(Size * Size, k requires 0 <= k < Size * Size => Coord(k / Size, k % Size))
  }

  /**
   * The k-th position inserted is (k / 4, k % 4), x outer and y inner; every
   * position of the grid is in the insertion order exactly once, and nothing
   * else is.
   */
  lemma InsertionOrderExact()
    ensures forall k :: 0 <= k < |InsertionOrder()| ==> InsertionOrder()[k] == Coord(k / Size, k % Size)
    ensures forall i, j :: 0 <= i < j < |InsertionOrder()| ==> InsertionOrder()[i] != InsertionOrder()[j]
    ensures forall c :: c in InsertionOrder() <==> InGrid(Size, Size, c)
  {
    var r := InsertionOrder();
    forall i, j | 0 <= i < j < |r|
      ensures r[i] != r[j]
    {
      assert i == (i / Size) * Size + i % Size && j == (j / Size) * Size + j % Size;
    }
    forall c | InGrid(Size, Size, c)
      ensures c in r
    {
      var k := c.x * Size + c.y;
      DivModUnique(k, Size, c.x, c.y);
      assert r[k] == c;
    }
  }

  // ---------------------------------------------------------------------
  // State
  // ---------------------------------------------------------------------

  datatype Net = Net(nodes: map<Coord, MeshNode>, stats: map<string, Stat>)

  function StatOf(c: Coord, metric: string): string
  {
    StatName(c.x, c.y, metric)
  }

  /** `addData` on a statistic when statistics are enabled; nothing otherwise. */
  function Note(stats: map<string, Stat>, on: bool, name: string, v: int): map<string, Stat>
  {
    if on then AddedData(stats, name, v) else stats
  }

  /** The five registrations a node makes when it is created. */
  function RegisterNode(stats: map<string, Stat>, c: Coord): map<string, Stat>
  {
    var at := NodeKey(c.x, c.y);
    stats[StatOf(c, SentStat) := NewStat(StatOf(c, SentStat), "Total packets sent from node " + at)]
         [StatOf(c, ReceivedStat) := NewStat(StatOf(c, ReceivedStat), "Total packets received by node " + at)]
         [StatOf(c, ForwardedStat) := NewStat(StatOf(c, ForwardedStat), "Total packets forwarded by node " + at)]
         [StatOf(c, HopStat) := NewStat(StatOf(c, HopStat), "Hop count for packets received by node " + at)]
         [StatOf(c, QueueStat) := NewStat(StatOf(c, QueueStat), "Input queue length for node " + at)]
  }

  /** The node table is the 4x4 grid, every node at its own key and wired as `_connect_nodes` wires it. */
  ghost predicate WellFormed(nodes: map<Coord, MeshNode>)
  {
    && (forall c :: InGrid(Size, Size, c) ==> c in nodes)
    && (forall c :: c in nodes ==> InGrid(Size, Size, c) && nodes[c].pos == c && nodes[c].neighbors == SimpleLinks(c))
  }

  /** A node's five statistics exist and the three packet statistics equal its three counters. */
  predicate NodeStatsOk(n: MeshNode, stats: map<string, Stat>)
  {
    && StatOf(n.pos, SentStat) in stats && StatOf(n.pos, ReceivedStat) in stats
    && StatOf(n.pos, ForwardedStat) in stats && StatOf(n.pos, HopStat) in stats
    && StatOf(n.pos, QueueStat) in stats
    && stats[StatOf(n.pos, SentStat)].value == n.packetsSent
    && stats[StatOf(n.pos, ReceivedStat)].value == n.packetsReceived
    && stats[StatOf(n.pos, ForwardedStat)].value == n.packetsForwarded
  }

  ghost predicate StatsMatch(net: Net)
  {
    forall c :: c in net.nodes ==> NodeStatsOk(net.nodes[c], net.stats)
  }

  /** The state invariant: a well-formed table and, with statistics on, statistics that agree with the counters. */
  ghost predicate NetOk(net: Net, on: bool)
  {
    WellFormed(net.nodes) && (on ==> StatsMatch(net))
  }

  // ---------------------------------------------------------------------
  // Operations
  // ---------------------------------------------------------------------

  /** Python's `(x, y) in self.nodes` for arbitrary integers. */
  predicate HasNode(nodes: map<Coord, MeshNode>, x: int, y: int)
  {
    x >= 0 && y >= 0 && Coord(x, y) in nodes
  }

  /** `send_packet` at node c: queue a new packet with hop count 0, count it, record sent and queue length. */
  function SendPacket(net: Net, on: bool, c: Coord, dest: Coord, data: string, id: nat): Net
    requires c in net.nodes
  {
    var n := net.nodes[c];
    var q := n.inputQueue + [SPacket(n.pos, dest, data, id, 0)];
    Net(net.nodes[c := n.(inputQueue := q, packetsSent := n.packetsSent + 1)],
        Note(Note(net.stats, on, StatOf(n.pos, SentStat), 1), on, StatOf(n.pos, QueueStat), |q|))
  }

  /** `send_message`: the new state and packet counter. */
  function SendMessage(net: Net, on: bool, counter: nat, sx: int, sy: int, dx: int, dy: int, msg: string): (Net, nat)
  {
    if !HasNode(net.nodes, sx, sy) || !HasNode(net.nodes, dx, dy) then (net, counter)
    else (SendPacket(net, on, Coord(sx, sy), Coord(dx, dy), msg, counter + 1), counter + 1)
  }

  function PopInput(net: Net, c: Coord): Net
    requires c in net.nodes && |net.nodes[c].inputQueue| > 0
  {
    net.(nodes := net.nodes[c := net.nodes[c].(inputQueue := net.nodes[c].inputQueue[1..])])
  }

  /** `_route_packet` at node c: deliver (count it, record it and its hop count) or append to one output queue. */
  function RoutePacket(net: Net, on: bool, c: Coord, p: SPacket): (r: Net)
    requires c in net.nodes
    ensures r.nodes.Keys == net.nodes.Keys
    ensures r.nodes[c].inputQueue == net.nodes[c].inputQueue
  {
    var n := net.nodes[c];
    var d := XYRoute(n.pos, p.destination);
    if d == Local then
      Net(net.nodes[c := n.(packetsReceived := n.packetsReceived + 1)],
          Note(Note(net.stats, on, StatOf(n.pos, ReceivedStat), 1), on, StatOf(n.pos, HopStat), p.hopCount))
    else
      net.(nodes := net.nodes[c := n.(outputQueues := n.outputQueues.Set(d, n.outputQueues.Get(d) + [p]))])
  }

  /** The routing phase of `process_packets`: take packets off the front of the input queue until it is empty. */
  function RouteAll(net: Net, on: bool, c: Coord): (r: Net)
    requires c in net.nodes
    ensures r.nodes.Keys == net.nodes.Keys
    decreases |net.nodes[c].inputQueue|
  {
    var q := net.nodes[c].inputQueue;
    if |q| == 0 then net
    else RouteAll(RoutePacket(PopInput(net, c), on, c, q[0]), on, c)
  }

  /**
   * One direction of the transfer phase: when the direction is not LOCAL,
   * its queue is non-empty and a neighbour exists, the oldest packet moves to
   * the end of the neighbour's input queue with one more hop, and the node
   * counts and records one forward.  (The neighbour is always in the table
   * once the mesh is built.)
   */
  function TransferDir(net: Net, on: bool, c: Coord, d: Direction): (r: Net)
    requires c in net.nodes
    ensures r.nodes.Keys == net.nodes.Keys
  {
    var n := net.nodes[c];
    var q := n.outputQueues.Get(d);
    if |q| == 0 || d == Local then net
    else match n.neighbors.Get(d)
      case None => net
      case Some(m) =>
        if m !in net.nodes then net
        else
          var n1 := n.(outputQueues := n.outputQueues.Set(d, q[1..]), packetsForwarded := n.packetsForwarded + 1);
          var nodes1 := net.nodes[c := n1];
          Net(nodes1[m := nodes1[m].(inputQueue := nodes1[m].inputQueue + [q[0].(hopCount := q[0].hopCount + 1)])],
              Note(net.stats, on, StatOf(n.pos, ForwardedStat), 1))
  }

  /** The transfer phase over the first k directions of the output-queue dictionary. */
  function TransferUpTo(net: Net, on: bool, c: Coord, k: nat): (r: Net)
    requires c in net.nodes && k <= |AllDirections|
    ensures r.nodes.Keys == net.nodes.Keys
  {
    if k == 0 then net else TransferDir(TransferUpTo(net, on, c, k - 1), on, c, AllDirections[k - 1])
  }

  /** `process_packets` at node c: the routing phase, then the transfer phase. */
  function ProcessNode(net: Net, on: bool, c: Coord): (r: Net)
    requires c in net.nodes
    ensures r.nodes.Keys == net.nodes.Keys
  {
    TransferUpTo(RouteAll(net, on, c), on, c, |AllDirections|)
  }

  /** The first k nodes of `order` processed in turn. */
  function ProcessOrder(net: Net, on: bool, order: seq<Coord>, k: nat): (r: Net)
    requires k <= |order| && forall i :: 0 <= i < |order| ==> order[i] in net.nodes
    ensures r.nodes.Keys == net.nodes.Keys
  {
    if k == 0 then net else ProcessNode(ProcessOrder(net, on, order, k - 1), on, order[k - 1])
  }

  /** `simulate(steps)`: `steps` rounds of `simulate_step`. */
  function Steps(net: Net, on: bool, order: seq<Coord>, steps: nat): (r: Net)
    requires forall i :: 0 <= i < |order| ==> order[i] in net.nodes
    ensures r.nodes.Keys == net.nodes.Keys
  {
    if steps == 0 then net else ProcessOrder(Steps(net, on, order, steps - 1), on, order, |order|)
  }
}
