/**
 * The 4x4 mesh simulator as an object: the node table keyed by coordinate,
 * the packet counter and the statistics registry it writes to.  Each method
 * changes the table in place and is proved to produce the state the
 * corresponding function of SimpleNet describes; the lemmas of
 * SimpleInvariant then say what that state is.
 */
module SimpleMesh {
  import opened Wrappers
  import opened Grid
  import opened Routing
  import opened StatNames
  import opened MockStatistics
  import opened SimpleNet
  import opened SimpleInvariant

  class Mesh4x4 {
    const size: nat
    const enableSstStats: bool
    /** The shared registry when statistics are enabled, null otherwise. */
    const statsManager: MockSSTStatistics?
    /** The dictionary's key order (x outer, y inner); `simulate_step` visits the nodes in it. */
    const order: seq<Coord>
    var nodes: map<Coord, MeshNode>
    var packetCounter: nat

    /** The statistics the nodes write to; empty when statistics are off. */
    function Stats(): map<string, Stat>
      reads this, statsManager
    {
      if statsManager == null then map[] else statsManager.stats
    }

    function State(): Net
      reads this, statsManager
    {
      Net(nodes, Stats())
    }

    predicate On()
    {
      statsManager != null
    }

    ghost predicate Valid()
      reads this, statsManager
    {
      && size == Size
      && (On() <==> enableSstStats)
      && NetOk(State(), On())
      && (forall i :: 0 <= i < |order| ==> order[i] in nodes)
    }

    /**
     * What the per-node steps need of node c: it is in the table at its own
     * key with its wiring, the whole grid is in the table, and (statistics on)
     * the statistics it writes to are registered.
     */
    ghost predicate Ready(c: Coord)
      reads this, statsManager
    {
      && InGrid(Size, Size, c) && c in nodes && nodes[c].pos == c && nodes[c].neighbors == SimpleLinks(c)
      && (forall m :: InGrid(Size, Size, m) ==> m in nodes)
      && (On() ==> StatOf(c, ReceivedStat) in Stats() && StatOf(c, HopStat) in Stats()
                   && StatOf(c, ForwardedStat) in Stats())
    }

    /**
     * Builds the 16 nodes in dictionary order, registering each node's five
     * statistics when statistics are enabled, then wires every node to its
     * in-grid neighbours.
     */
    constructor(enableSstStats: bool := true, sst: MockSSTStatistics)
      modifies sst
      ensures Valid()
      ensures this.enableSstStats == enableSstStats
      ensures statsManager == (if enableSstStats then sst else null)
      ensures packetCounter == 0 && order == InsertionOrder()
      ensures forall c :: c in nodes ==> nodes[c] == NewMeshNode(c).(neighbors := SimpleLinks(c))
      ensures !enableSstStats ==> sst.stats == old(sst.stats)
    {
      size := Size;
      this.enableSstStats := enableSstStats;
      statsManager := if enableSstStats then sst else null;
      packetCounter := 0;
      var ns, ord := CreateTopology(enableSstStats, sst);
      ns := ConnectNodes(ns);
      nodes := ns;
      order := ord;
    }

    /**
     * `_create_topology`: a fresh node for every coordinate, x outer and y
     * inner, each registering its five statistics when statistics are
     * enabled; returns the table and its key order.
     */
    static method CreateTopology(enableSstStats: bool, sst: MockSSTStatistics) returns (ns: map<Coord, MeshNode>, ord: seq<Coord>)
      modifies sst
      ensures ord == InsertionOrder()
      ensures forall c :: c in ns <==> InGrid(Size, Size, c)
      ensures forall c :: c in ns ==> ns[c] == NewMeshNode(c)
      ensures enableSstStats ==> forall c :: c in ns ==> NodeStatsOk(ns[c], sst.stats)
      ensures !enableSstStats ==> sst.stats == old(sst.stats)
    {
      ns := map[];
      ord := [];
      var x := 0;
      while x < Size
        invariant 0 <= x <= Size
        invariant |ord| == Size * x
        invariant forall k :: 0 <= k < |ord| ==> ord[k] == Coord(k / Size, k % Size)
        invariant forall c :: c in ns <==> c.x < x && c.y < Size
        invariant forall c :: c in ns ==> ns[c] == NewMeshNode(c)
        invariant enableSstStats ==> forall c :: c in ns ==> NodeStatsOk(ns[c], sst.stats)
        invariant !enableSstStats ==> sst.stats == old(sst.stats)
      {
        var y := 0;
        while y < Size
          invariant 0 <= y <= Size
          invariant |ord| == Size * x + y
          invariant forall k :: 0 <= k < |ord| ==> ord[k] == Coord(k / Size, k % Size)
          invariant forall c :: c in ns <==> (c.x < x && c.y < Size) || (c.x == x && c.y < y)
          invariant forall c :: c in ns ==> ns[c] == NewMeshNode(c)
          invariant enableSstStats ==> forall c :: c in ns ==> NodeStatsOk(ns[c], sst.stats)
          invariant !enableSstStats ==> sst.stats == old(sst.stats)
        {
          var c := Coord(x, y);
          if enableSstStats {
            ghost var before := sst.stats;
            RegisterNodeStatistics(sst, c);
            RegisterNodeFresh(before, c);
            forall c2 | c2 in ns
              ensures NodeStatsOk(ns[c2], sst.stats)
            {
              RegisterNodeKeeps(before, c, ns[c2]);
            }
          }
          ns := ns[c := NewMeshNode(c)];
          ord := ord + [c];
          y := y + 1;
        }
        x := x + 1;
      }
    }

    /** `_connect_nodes`: gives every node of the grid a neighbour in each direction that stays inside the grid. */
    static method ConnectNodes(ns: map<Coord, MeshNode>) returns (linked: map<Coord, MeshNode>)
      requires forall c :: c in ns <==> InGrid(Size, Size, c)
      requires forall c :: c in ns ==> ns[c].neighbors == Uniform(None)
      ensures linked.Keys == ns.Keys
      ensures forall c :: c in linked ==> linked[c] == ns[c].(neighbors := SimpleLinks(c))
    {
      ghost var target := map c | c in ns :: ns[c].(neighbors := SimpleLinks(c));
      linked := ns;
      var x := 0;
      while x < Size
        invariant 0 <= x <= Size
        invariant linked.Keys == ns.Keys
        invariant forall c {:trigger linked[c]} :: c in linked ==> linked[c] == if c.x < x then target[c] else ns[c]
      {
        var y := 0;
        while y < Size
          invariant 0 <= y <= Size
          invariant linked.Keys == ns.Keys
          invariant forall c {:trigger linked[c]} :: c in linked ==> linked[c] == if c.x < x || (c.x == x && c.y < y) then target[c] else ns[c]
        {
          var c := Coord(x, y);
          var node := LinkNode(linked[c], x, y);
          linked := linked[c := node];
          y := y + 1;
        }
        x := x + 1;
      }
    }

    /**
     * The body of the loop of `_connect_nodes` for the node at (x, y):
     * `connect_neighbor` towards each adjacent coordinate inside the grid.
     */
    static method LinkNode(node: MeshNode, x: nat, y: nat) returns (linked: MeshNode)
      ensures linked == node.(neighbors := linked.neighbors)
      ensures node.neighbors == Uniform(None) ==> linked.neighbors == SimpleLinks(Coord(x, y))
    {
      linked := node;
      if y > 0 {
        linked := linked.(neighbors := linked.neighbors.Set(North, Some(Coord(x, y - 1))));
      }
      if y < Size - 1 {
        linked := linked.(neighbors := linked.neighbors.Set(South, Some(Coord(x, y + 1))));
      }
      if x < Size - 1 {
        linked := linked.(neighbors := linked.neighbors.Set(East, Some(Coord(x + 1, y))));
      }
      if x > 0 {
        linked := linked.(neighbors := linked.neighbors.Set(West, Some(Coord(x - 1, y))));
      }
    }

    /** The five `registerStatistic` calls of a new node at c. */
    static method RegisterNodeStatistics(sst: MockSSTStatistics, c: Coord)
      modifies sst
      ensures sst.stats == RegisterNode(old(sst.stats), c)
    {
      var at := NodeKey(c.x, c.y);
      sst.RegisterStatistic(StatOf(c, SentStat), "Total packets sent from node " + at);
      sst.RegisterStatistic(StatOf(c, ReceivedStat), "Total packets received by node " + at);
      sst.RegisterStatistic(StatOf(c, ForwardedStat), "Total packets forwarded by node " + at);
      sst.RegisterStatistic(StatOf(c, HopStat), "Hop count for packets received by node " + at);
      sst.RegisterStatistic(StatOf(c, QueueStat), "Input queue length for node " + at);
    }

    /** `get_node`: the node at (x, y), or none when there is no such key. */
    function GetNode(x: int, y: int): (r: Option<MeshNode>)
      requires Valid()
      reads this, statsManager
      ensures r.Some? <==> 0 <= x < Size && 0 <= y < Size
      ensures r.Some? ==> r.value.pos == Coord(x, y)
    {
      if HasNode(nodes, x, y) then Some(nodes[Coord(x, y)]) else None
    }

    /** `send_message`; see SimpleInvariant.SendMessageEffect for what the new state is. */
    method SendMessage(srcX: int, srcY: int, dstX: int, dstY: int, message: string)
      requires Valid()
      modifies this, statsManager
      ensures Valid()
      ensures (State(), packetCounter) == SimpleNet.SendMessage(old(State()), On(), old(packetCounter), srcX, srcY, dstX, dstY, message)
    {
      if !HasNode(nodes, srcX, srcY) || !HasNode(nodes, dstX, dstY) {
        return;
      }
      packetCounter := packetCounter + 1;
      SendPacket(Coord(srcX, srcY), Coord(dstX, dstY), message, packetCounter);
    }

    /** `MeshNode.send_packet` on the node at c. */
    method SendPacket(c: Coord, dest: Coord, data: string, id: nat)
      requires Valid() && c in nodes
      modifies this, statsManager
      ensures Valid()
      ensures State() == SimpleNet.SendPacket(old(State()), On(), c, dest, data, id)
      ensures packetCounter == old(packetCounter)
    {
      ghost var next := SimpleNet.SendPacket(State(), On(), c, dest, data, id);
      SendPacketOk(State(), On(), c, dest, data, id);
      var node := nodes[c];
      var q := node.inputQueue + [SPacket(node.pos, dest, data, id, 0)];
      nodes := nodes[c := node.(inputQueue := q, packetsSent := node.packetsSent + 1)];
      if statsManager != null {
        statsManager.AddData(StatOf(node.pos, SentStat), 1);
        statsManager.AddData(StatOf(node.pos, QueueStat), |q|);
      }
      assert State() == next;
    }

    /** `MeshNode._route_packet` on the node at c. */
    method RoutePacket(c: Coord, p: SPacket)
      requires Ready(c)
      modifies this, statsManager
      ensures Ready(c) && nodes.Keys == old(nodes.Keys)
      ensures State() == SimpleNet.RoutePacket(old(State()), On(), c, p)
      ensures unchanged(this`packetCounter)
    {
      ghost var next := SimpleNet.RoutePacket(State(), On(), c, p);
      var node := nodes[c];
      var d := XYRoute(node.pos, p.destination);
      if d == Local {
        nodes := nodes[c := node.(packetsReceived := node.packetsReceived + 1)];
        if statsManager != null {
          statsManager.AddData(StatOf(node.pos, ReceivedStat), 1);
          statsManager.AddData(StatOf(node.pos, HopStat), p.hopCount);
        }
      } else {
        nodes := nodes[c := node.(outputQueues := node.outputQueues.Set(d, node.outputQueues.Get(d) + [p]))];
      }
      assert State() == next;
    }

    /** One direction of the transfer loop of `MeshNode.process_packets` on the node at c. */
    method TransferDir(c: Coord, d: Direction)
      requires Ready(c)
      modifies this, statsManager
      ensures Ready(c) && nodes.Keys == old(nodes.Keys)
      ensures State() == SimpleNet.TransferDir(old(State()), On(), c, d)
      ensures unchanged(this`packetCounter)
    {
      ghost var next := SimpleNet.TransferDir(State(), On(), c, d);
      var node := nodes[c];
      var q := node.outputQueues.Get(d);
      if |q| > 0 && d != Local {
        var neighbor := node.neighbors.Get(d);
        if neighbor.Some? {
          var m := neighbor.value;
          SimpleLinksAreMesh(c, d);
          NeighborInGrid(Mesh, Size, Size, c, d);
          var p := q[0];
          nodes := nodes[c := node.(outputQueues := node.outputQueues.Set(d, q[1..]),
                                    packetsForwarded := node.packetsForwarded + 1)];
          nodes := nodes[m := nodes[m].(inputQueue := nodes[m].inputQueue + [p.(hopCount := p.hopCount + 1)])];
          if statsManager != null {
            statsManager.AddData(StatOf(node.pos, ForwardedStat), 1);
          }
        }
      }
      assert State() == next;
    }

    /** `MeshNode.process_packets` on the node at c: drain the input queue, then one transfer per direction. */
    method ProcessPackets(c: Coord)
      requires Valid() && c in nodes
      modifies this, statsManager
      ensures Valid()
      ensures State() == ProcessNode(old(State()), On(), c)
      ensures unchanged(this`packetCounter)
    {
      ghost var start := State();
      ProcessNodeOk(start, On(), c);
      assert Ready(c) by {
        if On() {
          assert StatsMatch(start);
        }
      }
      RouteInput(c);
      TransferOutput(c);
    }

    /** The first loop of `MeshNode.process_packets`: route packets off the front of the input queue until it is empty. */
    method RouteInput(c: Coord)
      requires Ready(c)
      modifies this, statsManager
      ensures Ready(c) && nodes.Keys == old(nodes.Keys)
      ensures State() == RouteAll(old(State()), On(), c)
      ensures unchanged(this`packetCounter)
    {
      ghost var start := State();
      while |nodes[c].inputQueue| > 0
        invariant Ready(c) && nodes.Keys == old(nodes.Keys)
        invariant RouteAll(State(), On(), c) == RouteAll(start, On(), c)
        invariant unchanged(this`packetCounter)
        decreases |nodes[c].inputQueue|
      {
        var node := nodes[c];
        var p := node.inputQueue[0];
        nodes := nodes[c := node.(inputQueue := node.inputQueue[1..])];
        RoutePacket(c, p);
      }
    }

    /** The second loop of `MeshNode.process_packets`: one transfer per output-queue direction, in dictionary order. */
    method TransferOutput(c: Coord)
      requires Ready(c)
      modifies this, statsManager
      ensures Ready(c) && nodes.Keys == old(nodes.Keys)
      ensures State() == TransferUpTo(old(State()), On(), c, |AllDirections|)
      ensures unchanged(this`packetCounter)
    {
      ghost var start := State();
      for i := 0 to |AllDirections|
        invariant Ready(c) && nodes.Keys == old(nodes.Keys)
        invariant State() == TransferUpTo(start, On(), c, i)
        invariant unchanged(this`packetCounter)
      {
        TransferDir(c, AllDirections[i]);
      }
    }

    /** `simulate_step`: `process_packets` once per node, in dictionary order. */
    method SimulateStep()
      requires Valid()
      modifies this, statsManager
      ensures Valid()
      ensures State() == ProcessOrder(old(State()), On(), order, |order|)
      ensures unchanged(this`packetCounter)
    {
      for k := 0 to |order|
        invariant Valid() && nodes.Keys == old(nodes.Keys)
        invariant State() == ProcessOrder(old(State()), On(), order, k)
        invariant unchanged(this`packetCounter)
      {
        ProcessPackets(order[k]);
      }
    }

    /** `simulate(steps)`: `simulate_step` once for each value of `range(steps)`, ten by default. */
    method Simulate(steps: int := 10)
      requires Valid()
      modifies this, statsManager
      ensures Valid()
      ensures State() == Steps(old(State()), On(), order, if steps > 0 then steps else 0)
      ensures unchanged(this`packetCounter)
    {
      var step := 0;
      while step < steps
        invariant 0 <= step <= (if steps > 0 then steps else 0)
        invariant Valid() && nodes.Keys == old(nodes.Keys)
        invariant State() == Steps(old(State()), On(), order, step)
        invariant unchanged(this`packetCounter)
      {
        SimulateStep();
        step := step + 1;
      }
    }
  }
}
