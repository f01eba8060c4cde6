/**
 * The hybrid Miranda mesh object: it builds the node table column by
 * column, wires it as a mesh or a torus, accepts messages between nodes and
 * steps the logical packet simulation.  Each method is proved to compute the
 * pure definition in MeshState / MeshInvariant, and the object keeps the
 * mesh invariant: every packet ever sent is queued exactly once or has been
 * delivered exactly once, and the counters agree with the queues.
 */
module HybridMesh {
  import opened Wrappers
  import opened Grid
  import opened Routing
  import opened CoreTypes
  import opened MirandaNode
  import opened MeshState
  import opened MeshInvariant
  import opened TrafficAnalysis

  // ---------------------------------------------------------------------
  // Wiring of one node, as the connect loops write it
  // ---------------------------------------------------------------------

  /** The mesh connect loop at (x, y): east and south links, then the north and west back references. */
  method ConnectMeshNode(n: Node, X: nat, Y: nat, x: nat, y: nat) returns (r: Node)
    requires n.neighbors == Uniform(None)
    ensures r == n.(neighbors := MeshLinks(X, Y, x, y))
  {
    r := n;
    if x < X - 1 {
      r := ConnectNeighbor(r, East, LinkId(X, x + 1, y));
    }
    if y < Y - 1 {
      r := ConnectNeighbor(r, South, LinkId(X, x, y + 1));
    }
    if y > 0 {
      r := ConnectNeighbor(r, North, LinkId(X, x, y - 1));
    }
    if x > 0 {
      r := ConnectNeighbor(r, West, LinkId(X, x - 1, y));
    }
    assert r.neighbors == MeshLinks(X, Y, x, y);
  }

  /** The torus connect loop at (x, y): all four links exist, the edge ones wrapping around. */
  method ConnectTorusNode(n: Node, X: nat, Y: nat, x: nat, y: nat) returns (r: Node)
    requires x < X && y < Y && n.neighbors == Uniform(None)
    ensures r == n.(neighbors := TorusLinks(X, Y, x, y))
  {
    var eastId := LinkId(X, if x < X - 1 then x + 1 else 0, y);
    r := ConnectNeighbor(n, East, eastId);
    var southId := LinkId(X, x, if y < Y - 1 then y + 1 else 0);
    r := ConnectNeighbor(r, South, southId);
    var northId := LinkId(X, x, if y > 0 then y - 1 else Y - 1);
    r := ConnectNeighbor(r, North, northId);
    var westId := LinkId(X, if x > 0 then x - 1 else X - 1, y);
    r := ConnectNeighbor(r, West, westId);
    assert r.neighbors == TorusLinks(X, Y, x, y);
  }

  // ---------------------------------------------------------------------
  // Building the node table
  // ---------------------------------------------------------------------

  /** The table holds the fresh, unwired node of position c under its id. */
  predicate Unwired(table: map<nat, Node>, cfg: TopoConfig, X: nat, c: Coord)
  {
    IdOf(X, c) in table && table[IdOf(X, c)] == NewNode(IdOf(X, c), c, cfg)
  }

  /** The table holds the node of position c under its id, wired to its grid neighbours. */
  predicate WiredEntry(table: map<nat, Node>, cfg: TopoConfig, t: TopologyType, X: nat, Y: nat, c: Coord)
    requires InGrid(X, Y, c)
  {
    IdOf(X, c) in table && table[IdOf(X, c)] == NewNode(IdOf(X, c), c, cfg).(neighbors := Links(t, X, Y, c))
  }

  /**
   * Creates one unwired node per position, column by column (x outer, y
   * inner), the node at (x, y) getting id y * X + x; `fill` is the order of
   * insertion.
   */
  method CreateTopology(cfg: TopoConfig, X: nat, Y: nat) returns (table: map<nat, Node>, fill: seq<nat>)
    ensures fill == VisitOrder(X, Y, X)
    ensures forall id :: id in table ==> id < X * Y
    ensures forall c :: InGrid(X, Y, c) ==> Unwired(table, cfg, X, c)
  {
    table := map[];
    fill := [];
    var x := 0;
    while x < X
      invariant x <= X
      invariant fill == VisitOrder(X, Y, x)
      invariant forall c :: InGrid(X, Y, c) ==> (IdOf(X, c) in table <==> c.x < x)
      invariant forall id :: id in table ==> id < X * Y && table[id] == NewNode(id, CoordOf(X, id), cfg)
    {
      var y := 0;
      while y < Y
        invariant y <= Y
        invariant fill == VisitOrder(X, Y, x) + Column(X, Y, x)[..y]
        invariant forall c :: InGrid(X, Y, c) ==> (IdOf(X, c) in table <==> c.x < x || (c.x == x && c.y < y))
        invariant forall id :: id in table ==> id < X * Y && table[id] == NewNode(id, CoordOf(X, id), cfg)
      {
        var nodeId := LinkId(X, x, y);
        IdOfBounds(X, Y, Coord(x, y));
        forall c | InGrid(X, Y, c) && IdOf(X, c) == nodeId
          ensures c == Coord(x, y)
        {
          IdOfBounds(X, Y, c);
        }
        table := table[nodeId := NewNode(nodeId, Coord(x, y), cfg)];
        assert Column(X, Y, x)[..y + 1] == Column(X, Y, x)[..y] + [nodeId];
        fill := fill + [nodeId];
        y := y + 1;
      }
      assert Column(X, Y, x)[..Y] == Column(X, Y, x);
      x := x + 1;
    }
    forall c | InGrid(X, Y, c)
      ensures Unwired(table, cfg, X, c)
    {
      IdOfBounds(X, Y, c);
    }
  }

  /** Wires every node in the same column-by-column order, as a mesh or as a torus. */
  method ConnectNodes(table0: map<nat, Node>, cfg: TopoConfig, t: TopologyType, X: nat, Y: nat) returns (table: map<nat, Node>)
    requires forall id :: id in table0 ==> id < X * Y
    requires forall c :: InGrid(X, Y, c) ==> Unwired(table0, cfg, X, c)
    ensures forall i :: 0 <= i < X * Y ==> i in table && table[i] == InitialNodes(cfg, t, X, Y)[i]
  {
    table := table0;
    var x := 0;
    while x < X
      invariant x <= X
      invariant forall id :: id in table ==> id < X * Y
      invariant forall c :: InGrid(X, Y, c) ==> if c.x < x then WiredEntry(table, cfg, t, X, Y, c) else Unwired(table, cfg, X, c)
    {
      var y := 0;
      while y < Y
        invariant y <= Y
        invariant forall id :: id in table ==> id < X * Y
        invariant forall c :: InGrid(X, Y, c) ==> if c.x < x || (c.x == x && c.y < y) then WiredEntry(table, cfg, t, X, Y, c) else Unwired(table, cfg, X, c)
      {
        var nodeId := LinkId(X, x, y);
        assert Unwired(table, cfg, X, Coord(x, y));
        forall c | InGrid(X, Y, c) && IdOf(X, c) == nodeId
          ensures c == Coord(x, y)
        {
          IdOfBounds(X, Y, c);
          IdOfBounds(X, Y, Coord(x, y));
        }
        var n := table[nodeId];
        if t == Mesh {
          n := ConnectMeshNode(n, X, Y, x, y);
        } else {
          n := ConnectTorusNode(n, X, Y, x, y);
        }
        table := table[nodeId := n];
        y := y + 1;
      }
      x := x + 1;
    }
    forall i | 0 <= i < X * Y
      ensures i in table && table[i] == InitialNodes(cfg, t, X, Y)[i]
    {
      CoordOfBounds(X, Y, i);
      assert WiredEntry(table, cfg, t, X, Y, CoordOf(X, i));
    }
  }

  /** The node table after creation and wiring, read back by id. */
  method BuildNodes(cfg: TopoConfig, t: TopologyType, X: nat, Y: nat) returns (ns: seq<Node>, fill: seq<nat>)
    ensures ns == InitialNodes(cfg, t, X, Y)
    ensures fill == VisitOrder(X, Y, X)
  {
    var table;
    table, fill := CreateTopology(cfg, X, Y);
    table := ConnectNodes(table, cfg, t, X, Y);
    ns := seq(X * Y, i requires 0 <= i < X * Y => table[i]);
  }

  // ---------------------------------------------------------------------
  // Facts the object needs whatever its configuration says
  // ---------------------------------------------------------------------

  /** The freshly wired table only refers to existing nodes. */
  lemma InitialLinksInRange(cfg: TopoConfig, t: TopologyType, X: nat, Y: nat)
    ensures LinksInRange(InitialNodes(cfg, t, X, Y))
  {
    var ns := InitialNodes(cfg, t, X, Y);
    forall i, d | 0 <= i < |ns| && ns[i].neighbors.Get(d).Some?
      ensures ns[i].neighbors.Get(d).value < |ns|
    {
      CoordOfBounds(X, Y, i);
      LinksInGrid(t, X, Y, CoordOf(X, i), d);
    }
  }

  /** Sending never rewires a node. */
  lemma SendMessageLinks(ns: seq<Node>, counter: nat, src: int, dst: int, message: string, memoryRequest: bool := false, size: int := 64)
    requires LinksInRange(ns)
    ensures LinksInRange(SendMessage(ns, counter, src, dst, message, memoryRequest, size).0)
  {
    var r := SendMessage(ns, counter, src, dst, message, memoryRequest, size).0;
    forall i, d | 0 <= i < |r| && r[i].neighbors.Get(d).Some?
      ensures r[i].neighbors.Get(d).value < |r|
    {
      assert r[i].neighbors == ns[i].neighbors;
    }
  }

  // ---------------------------------------------------------------------
  // Lookup by position
  // ---------------------------------------------------------------------

  /** The id a position is turned into: y * X + x, whatever x and y are. */
  function PositionId(X: nat, x: int, y: int): int
  {
    y * X + x
  }

  /** Position lookup as the mesh writes it: the id is computed without checking x and y against the grid. */
  function NodeByPositionAsWritten(ns: seq<Node>, X: nat, x: int, y: int): Option<Node>
  {
    var id := PositionId(X, x, y);
    if 0 <= id < |ns| then Some(ns[id]) else None
  }

  /** The lookup as intended: positions outside the grid name no node. */
  function NodeAtPosition(ns: seq<Node>, X: nat, Y: nat, x: int, y: int): Option<Node>
  {
    if 0 <= x < X && 0 <= y < Y then NodeByPositionAsWritten(ns, X, x, y) else None
  }

  /** On a wired table the intended lookup finds a node exactly for the positions of the grid, and the node sits there. */
  lemma NodeAtPositionCorrect(ns: seq<Node>, cfg: TopoConfig, t: TopologyType, X: nat, Y: nat, x: int, y: int)
    requires Wired(ns, cfg, t, X, Y)
    ensures NodeAtPosition(ns, X, Y, x, y).Some? <==> 0 <= x < X && 0 <= y < Y
    ensures NodeAtPosition(ns, X, Y, x, y).Some? ==> NodeAtPosition(ns, X, Y, x, y).value.pos == Coord(x, y)
  {
    if 0 <= x < X && 0 <= y < Y {
      var c := Coord(x, y);
      IdOfBounds(X, Y, c);
      assert WiredNode(ns[IdOf(X, c)], IdOf(X, c), cfg, t, X, Y);
    }
  }

  /** Inside the grid the lookup as written agrees with the intended one. */
  lemma NodeByPositionInGrid(ns: seq<Node>, X: nat, Y: nat, x: int, y: int)
    requires |ns| == X * Y && 0 <= x < X && 0 <= y < Y
    ensures NodeByPositionAsWritten(ns, X, x, y) == NodeAtPosition(ns, X, Y, x, y)
    ensures NodeByPositionAsWritten(ns, X, x, y).Some?
  {
    IdOfBounds(X, Y, Coord(x, y));
  }

  /**
   * Outside the grid the lookup as written aliases another node: on any
   * wired table with at least one column and two rows, position (X, 0), one past the east
   * edge, yields the node at (0, 1), and (-1, 1), one past the west edge,
   * the node at (X - 1, 0); the intended lookup finds no node for either.
   */
  lemma PositionAliasing(ns: seq<Node>, cfg: TopoConfig, t: TopologyType, X: nat, Y: nat)
    requires Wired(ns, cfg, t, X, Y) && X >= 1 && Y >= 2
    ensures X < |ns|
    ensures NodeByPositionAsWritten(ns, X, X, 0) == Some(ns[X]) && ns[X].pos == Coord(0, 1)
    ensures NodeByPositionAsWritten(ns, X, -1, 1) == Some(ns[X - 1]) && ns[X - 1].pos == Coord(X - 1, 0)
    ensures NodeAtPosition(ns, X, Y, X, 0) == None && NodeAtPosition(ns, X, Y, -1, 1) == None
  {
    assert |ns| == X * Y;
    MulMonotone(2, Y, X);
    assert WiredNode(ns[X], X, cfg, t, X, Y);
    assert WiredNode(ns[X - 1], X - 1, cfg, t, X, Y);
    DivModUnique(X, X, 1, 0);
    DivModUnique(X - 1, X, 0, X - 1);
  }

  // ---------------------------------------------------------------------
  // The mesh object
  // ---------------------------------------------------------------------

  /**
   * What the mesh object keeps true of its state: one node per grid
   * position, every visited id and every neighbour reference names a node,
   * and when the configuration agrees with the topology type the mesh
   * invariant holds.
   */
  ghost predicate MeshValid(t: TopologyType, cfg: TopoConfig, total: nat, order: seq<nat>,
                            ns: seq<Node>, counter: nat, delivered: multiset<nat>)
  {
    var X, Y := cfg.meshSizeX, cfg.meshSizeY;
    && total == X * Y && |ns| == total && OrderInRange(order, |ns|)
    && LinksInRange(ns)
    && (Consistent(cfg, t, X, Y) ==> Inv(ns, cfg, t, X, Y, counter, delivered))
  }

  /** The freshly built table satisfies it. */
  lemma InitialValid(t: TopologyType, cfg: TopoConfig)
    ensures var X, Y := cfg.meshSizeX, cfg.meshSizeY;
            MeshValid(t, cfg, X * Y, VisitOrder(X, Y, X), InitialNodes(cfg, t, X, Y), 0, multiset{})
  {
    var X, Y := cfg.meshSizeX, cfg.meshSizeY;
    VisitOrderInRange(X, Y);
    InitialLinksInRange(cfg, t, X, Y);
    if Consistent(cfg, t, X, Y) {
      InitialInv(cfg, t, X, Y);
    }
  }

  /** Sending keeps it, with the same delivered ids. */
  lemma SendValid(t: TopologyType, cfg: TopoConfig, total: nat, order: seq<nat>, ns: seq<Node>, counter: nat,
                  delivered: multiset<nat>, src: int, dst: int, message: string, memoryRequest: bool, size: int,
                  r: (seq<Node>, nat))
    requires MeshValid(t, cfg, total, order, ns, counter, delivered)
    requires r == SendMessage(ns, counter, src, dst, message, memoryRequest, size)
    ensures MeshValid(t, cfg, total, order, r.0, r.1, delivered)
  {
    SendMessageLinks(ns, counter, src, dst, message, memoryRequest, size);
    if Consistent(cfg, t, cfg.meshSizeX, cfg.meshSizeY) {
      SendMessageInv(ns, cfg, t, cfg.meshSizeX, cfg.meshSizeY, counter, delivered, src, dst, message, memoryRequest, size);
    }
  }

  /** One node's processing keeps it, adding the ids that node delivers. */
  lemma ProcessValid(t: TopologyType, cfg: TopoConfig, total: nat, order: seq<nat>, ns: seq<Node>, counter: nat,
                     delivered: multiset<nat>, i: nat, r: seq<Node>)
    requires MeshValid(t, cfg, total, order, ns, counter, delivered) && i < |ns|
    requires r == ProcessNode(ns, i)
    ensures MeshValid(t, cfg, total, order, r, counter, delivered + DeliveredIds(ns[i]))
  {
    if Consistent(cfg, t, cfg.meshSizeX, cfg.meshSizeY) {
      ProcessNodeInv(ns, cfg, t, cfg.meshSizeX, cfg.meshSizeY, counter, delivered, i);
    }
  }

  /**
   * One node's pass of the traffic-matrix scan: builds its matrix row and
   * credits each of its non-LOCAL directions with traffic to the link it
   * crosses, continuing from the utilisation table the earlier nodes left.
   */
  method NodeTraffic(n: Node, X: nat, Y: nat, links0: map<(Coord, Coord), Traffic>, ghost before: seq<Contribution>)
    returns (row: map<Coord, Traffic>, links: map<(Coord, Coord), Traffic>)
    requires links0 == Accumulate(before)
    ensures row == NodeRow(n, X, Y)
    ensures links == Accumulate(before + DirContribs(n, X, Y, |AllDirections|))
  {
    row := map[];
    links := links0;
    assert before + DirContribs(n, X, Y, 0) == before;
    for j := 0 to |AllDirections|
      invariant row == RowAfter(n, X, Y, j)
      invariant links == Accumulate(before + DirContribs(n, X, Y, j))
    {
      var d := AllDirections[j];
      var t := n.trafficByDirection.Get(d);
      ghost var credited := before + DirContribs(n, X, Y, j);
      DirContribsExtend(n, X, Y, j, before);
      assert credited + [] == credited;
      if t.packets > 0 {
        var neighborPos := MatrixNeighbor(X, Y, n.pos, d);
        if neighborPos.Some? {
          row := row[neighborPos.value := t];
          if d != Local {
            var key := LinkKey(n.pos, neighborPos.value);
            AccumulateSnoc(credited, Contribution(key, t));
            var sum := if key in links then links[key] else Traffic(0, 0);
            links := links[key := AddTraffic(sum, t)];
          }
        }
      }
    }
  }

  class HybridMirandaMesh {
    const topologyType: TopologyType
    const topologyConfig: TopoConfig
    const totalNodes: nat
    /** Ids in the order the node table was filled, which is the order a step visits them. */
    const order: seq<nat>
    /** The node table, indexed by node id. */
    var nodes: seq<Node>
    var packetCounter: nat
    /** Ids of the packets delivered so far. */
    ghost var delivered: multiset<nat>

    /** The state invariant MeshValid, over the object's fields. */
    ghost predicate Valid()
      reads this
    {
      MeshValid(topologyType, topologyConfig, totalNodes, order, nodes, packetCounter, delivered)
    }

    /**
     * Builds the table column by column (x outer, y inner), the node at
     * (x, y) getting id y * X + x, then wires it as the topology type says.
     * Without a configuration the default 4x4 one of the type is used.
     */
    constructor (topologyType: TopologyType := Mesh, config: Option<TopoConfig> := None)
      ensures this.topologyType == topologyType
      ensures topologyConfig == if config.Some? then config.value else DefaultTopoConfig(topologyType)
      ensures totalNodes == topologyConfig.meshSizeX * topologyConfig.meshSizeY
      ensures nodes == InitialNodes(topologyConfig, topologyType, topologyConfig.meshSizeX, topologyConfig.meshSizeY)
      ensures order == VisitOrder(topologyConfig.meshSizeX, topologyConfig.meshSizeY, topologyConfig.meshSizeX)
      ensures packetCounter == 0 && delivered == multiset{}
      ensures Valid()
    {
      var cfg := if config.Some? then config.value else DefaultTopoConfig(topologyType);
      var X, Y := cfg.meshSizeX, cfg.meshSizeY;
      this.topologyType := topologyType;
      topologyConfig := cfg;
      totalNodes := X * Y;

      var ns, fill := BuildNodes(cfg, topologyType, X, Y);
      nodes := ns;
      order := fill;
      packetCounter := 0;
      delivered := multiset{};
      InitialValid(topologyType, cfg);
    }

    /** The node with the given id, if there is one. */
    function GetNode(id: int): (r: Option<Node>)
      reads this
      requires Valid()
      ensures r.Some? <==> 0 <= id < totalNodes
      ensures r.Some? && Consistent(topologyConfig, topologyType, topologyConfig.meshSizeX, topologyConfig.meshSizeY) ==>
                r.value.nodeId == id && r.value.pos == CoordOf(topologyConfig.meshSizeX, id)
    {
      if 0 <= id < |nodes| then Some(nodes[id]) else None
    }

    /**
     * The node at position (x, y), looked up by the id y * X + x without a
     * bounds check on x and y (see PositionAliasing).
     */
    function GetNodeByPosition(x: int, y: int): (r: Option<Node>)
      reads this
      requires Valid()
      ensures r.Some? ==> r.value in nodes
      ensures 0 <= x < topologyConfig.meshSizeX && 0 <= y < topologyConfig.meshSizeY ==>
                r == NodeAtPosition(nodes, topologyConfig.meshSizeX, topologyConfig.meshSizeY, x, y) && r.Some?
    {
      var X, Y := topologyConfig.meshSizeX, topologyConfig.meshSizeY;
      if 0 <= x < X && 0 <= y < Y then
        NodeByPositionInGrid(nodes, X, Y, x, y);
        NodeByPositionAsWritten(nodes, X, x, y)
      else
        NodeByPositionAsWritten(nodes, X, x, y)
    }

    /**
     * Sends a message from node `src` to node `dst`: a send naming a missing
     * node changes nothing; otherwise the counter advances and the source
     * queues a packet carrying the new counter value as its id.
     */
    method SendMessage(src: int, dst: int, message: string, memoryRequest: bool := false, size: int := 64)
      requires Valid()
      modifies this
      ensures Valid()
      ensures (nodes, packetCounter) == MeshInvariant.SendMessage(old(nodes), old(packetCounter), src, dst, message, memoryRequest, size)
      ensures delivered == old(delivered)
    {
      ghost var r := MeshInvariant.SendMessage(nodes, packetCounter, src, dst, message, memoryRequest, size);
      SendValid(topologyType, topologyConfig, totalNodes, order, nodes, packetCounter, delivered,
                src, dst, message, memoryRequest, size, r);
      if !(0 <= src < |nodes|) || !(0 <= dst < |nodes|) {
        return;
      }
      var destPosition := nodes[dst].pos;
      packetCounter := packetCounter + 1;
      nodes := nodes[src := SendPacket(nodes[src], destPosition, message, packetCounter, memoryRequest, size)];
    }

    /** Sends between positions, each turned into the id y * X + x without a bounds check. */
    method SendMessageByPosition(srcX: int, srcY: int, dstX: int, dstY: int, message: string, memoryRequest: bool := false, size: int := 64)
      requires Valid()
      modifies this
      ensures Valid()
      ensures (nodes, packetCounter)
              == MeshInvariant.SendMessage(old(nodes), old(packetCounter),
                                           PositionId(topologyConfig.meshSizeX, srcX, srcY),
                                           PositionId(topologyConfig.meshSizeX, dstX, dstY),
                                           message, memoryRequest, size)
      ensures delivered == old(delivered)
    {
      var srcId := srcY * topologyConfig.meshSizeX + srcX;
      var dstId := dstY * topologyConfig.meshSizeX + dstX;
      SendMessage(srcId, dstId, message, memoryRequest, size);
    }

    /**
     * One node's packet processing: its routing phase empties its input
     * queue, then its transfer phase moves at most one packet per direction
     * to the neighbour's input queue.
     */
    method ProcessPackets(i: nat)
      requires Valid() && i < |nodes|
      modifies this
      ensures Valid()
      ensures nodes == ProcessNode(old(nodes), i)
      ensures packetCounter == old(packetCounter)
      ensures delivered == old(delivered) + DeliveredIds(old(nodes)[i])
    {
      ghost var ns0 := nodes;
      // routing phase
      var routedNode := RouteInputQueue(nodes[i]);
      delivered := delivered + DeliveredIds(nodes[i]);
      nodes := nodes[i := routedNode];
      SameSetupsLinks(ns0, nodes);
      ghost var routed := nodes;
      // transfer phase, one direction at a time in declaration order
      for k := 0 to |AllDirections|
        invariant |nodes| == |ns0|
        invariant nodes == TransferAll(routed, i, k)
        invariant packetCounter == old(packetCounter)
        invariant delivered == old(delivered) + DeliveredIds(ns0[i])
      {
        var d := AllDirections[k];
        if |nodes[i].outputQueues.Get(d)| > 0 && d != Local && nodes[i].neighbors.Get(d).Some? {
          var m := nodes[i].neighbors.Get(d).value;
          var p := nodes[i].outputQueues.Get(d)[0];
          nodes := nodes[i := PopOutput(nodes[i], d)];
          nodes := nodes[m := PushInput(nodes[m], Hopped(p))];
        }
      }
      ProcessValid(topologyType, topologyConfig, totalNodes, order, ns0, packetCounter, old(delivered), i, nodes);
    }

    /** One clock cycle: every node processes its packets, in table order. */
    method SimulateStep()
      requires Valid()
      modifies this
      ensures Valid()
      ensures nodes == ProcessOrder(old(nodes), order, |order|)
      ensures packetCounter == old(packetCounter)
      ensures delivered == DeliveredAfterOrder(old(nodes), order, |order|, old(delivered))
    {
      ghost var ns0, delivered0 := nodes, delivered;
      assert LinksInRange(ns0) && OrderInRange(order, |ns0|);
      for k := 0 to |order|
        invariant Valid()
        invariant nodes == ProcessOrder(ns0, order, k)
        invariant packetCounter == old(packetCounter)
        invariant delivered == DeliveredAfterOrder(ns0, order, k, delivered0)
      {
        ProcessOrderNext(ns0, order, k, delivered0);
        ProcessPackets(order[k]);
      }
    }

    /** Runs `steps` clock cycles (ten by default); a negative count runs none. */
    method Simulate(steps: int := 10)
      requires Valid()
      modifies this
      ensures Valid()
      ensures var n := if steps < 0 then 0 else steps;
              && nodes == Steps(old(nodes), order, n)
              && delivered == DeliveredAfterSteps(old(nodes), order, n, old(delivered))
      ensures packetCounter == old(packetCounter)
    {
      var n := if steps < 0 then 0 else steps;
      for step := 0 to n
        invariant Valid()
        invariant nodes == Steps(old(nodes), order, step)
        invariant packetCounter == old(packetCounter)
        invariant delivered == DeliveredAfterSteps(old(nodes), order, step, old(delivered))
      {
        SimulateStep();
      }
    }

    /**
     * The traffic matrix and the link utilisation: each node's row maps the
     * position each direction with traffic leads to (mesh bounds, LOCAL to
     * itself) to that direction's tally, and each link between adjacent
     * positions sums the tallies of both its directions.
     */
    method GetTrafficMatrix() returns (matrix: map<Coord, map<Coord, Traffic>>, links: map<(Coord, Coord), Traffic>)
      requires OrderInRange(order, |nodes|)
      ensures matrix == MatrixAfter(nodes, order, topologyConfig.meshSizeX, topologyConfig.meshSizeY, |order|)
      ensures links == Accumulate(MeshContribs(nodes, order, topologyConfig.meshSizeX, topologyConfig.meshSizeY, |order|))
    {
      var X, Y := topologyConfig.meshSizeX, topologyConfig.meshSizeY;
      matrix := map[];
      links := map[];
      for k := 0 to |order|
        invariant matrix == MatrixAfter(nodes, order, X, Y, k)
        invariant links == Accumulate(MeshContribs(nodes, order, X, Y, k))
      {
        var n := nodes[order[k]];
        ghost var before := MeshContribs(nodes, order, X, Y, k);
        var row;
        row, links := NodeTraffic(n, X, Y, links, before);
        matrix := matrix[n.pos := row];
      }
    }

    /**
     * The hotspot ranking (every node, by total bytes) and the congested
     * nodes (those forwarding more than half as many packets as they sent
     * and received, plus one, ranked by forwarding ratio), each sorted
     * highest first; HotspotRanking and CongestedRanking state what these
     * lists hold and in which order.
     */
    method AnalyzeHotspots() returns (ranking: seq<Ranked>, congested: seq<Ranked>)
      requires OrderInRange(order, |nodes|)
      ensures ranking == SortDescending(HotspotEntries(nodes, order, |order|))
      ensures congested == SortDescending(CongestedEntries(nodes, order, |order|))
    {
      var entries := [];
      for k := 0 to |order|
        invariant entries == HotspotEntries(nodes, order, k)
      {
        entries := entries + [HotspotEntry(nodes[order[k]])];
      }
      ranking := SortDescending(entries);

      var candidates := [];
      for k := 0 to |order|
        invariant candidates == CongestedEntries(nodes, order, k)
      {
        var n := nodes[order[k]];
        assert CongestedEntries(nodes, order, k + 1) == candidates + (if Congested(n) then [RatioEntry(n)] else []);
        if Congested(n) {
          candidates := candidates + [RatioEntry(n)];
        } else {
          assert candidates + [] == candidates;
        }
      }
      if candidates != [] {
        congested := SortDescending(candidates);
      } else {
        congested := candidates;
      }
    }
  }
}
