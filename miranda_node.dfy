/**
 * One node of the hybrid Miranda/SST simulator: its queues, its counters and
 * the two per-packet operations (injecting a packet and routing one packet
 * off the input queue), plus the routing phase that drains the input queue.
 * A node is a value; the mesh keeps the nodes in an array and rewrites one
 * slot at a time.  Neighbours are recorded as node ids.
 */
module MirandaNode {
  import opened Wrappers
  import opened Grid
  import opened Routing
  import opened CoreTypes

  /** A packet; wall-clock timestamps are not modelled. */
  datatype Packet = Packet(source: Coord, destination: Coord, data: string, packetId: nat,
                           hopCount: nat, memoryRequest: bool, sizeBytes: int)

  /** A packets/bytes tally. */
  datatype Traffic = Traffic(packets: nat, bytes: int)

  function Tally(t: Traffic, size: int): Traffic
  {
    Traffic(t.packets + 1, t.bytes + size)
  }

  /** Traffic split by packet type: plain data and memory requests. */
  datatype ByType = ByType(data: Traffic, memoryRequest: Traffic)

  datatype Node = Node(
    nodeId: nat, pos: Coord, cfg: TopoConfig, workload: Workload,
    neighbors: PerDirection<Option<nat>>,
    inputQueue: seq<Packet>, outputQueues: PerDirection<seq<Packet>>,
    packetsSent: nat, packetsReceived: nat, packetsForwarded: nat,
    bytesSent: int, bytesReceived: int, bytesForwarded: int,
    trafficByDirection: PerDirection<Traffic>, trafficByType: ByType,
    totalHopCount: nat)

  /** A freshly created node: no neighbours, empty queues, zero counters, workload chosen by position. */
  function NewNode(id: nat, pos: Coord, cfg: TopoConfig): Node
  {
    Node(id, pos, cfg, HybridWorkload(PositionClass(cfg.meshSizeX, cfg.meshSizeY, pos)),
         Uniform(None), [], Uniform([]), 0, 0, 0, 0, 0, 0,
         Uniform(Traffic(0, 0)), ByType(Traffic(0, 0), Traffic(0, 0)), 0)
  }

  /** Records `m` as the neighbour in direction `d`. */
  function ConnectNeighbor(n: Node, d: Direction, m: nat): Node
  {
    n.(neighbors := n.neighbors.Set(d, Some(m)))
  }

  /** The SST router port a link leaves from, for each of the four link directions. */
  function PortOf(d: Direction): Option<string>
  {
    match d
    case East => Some("port0")
    case West => Some("port1")
    case South => Some("port2")
    case North => Some("port3")
    case Local => None
  }

  /** The port on the neighbour's router that a link in direction `d` arrives at. */
  function ReversePortOf(d: Direction): Option<string>
  {
    match d
    case East => Some("port1")
    case West => Some("port0")
    case South => Some("port3")
    case North => Some("port2")
    case Local => None
  }

  /**
   * The two port maps mirror each other: a link in direction d arrives at
   * the port the neighbour itself uses for the opposite direction, and the
   * four directions use four different ports.
   */
  lemma PortMapsMirror(d: Direction, e: Direction)
    ensures d != Local ==> PortOf(d).Some? && ReversePortOf(d) == PortOf(Opposite(d))
    ensures PortOf(d).Some? && PortOf(d) == PortOf(e) ==> d == e
  {
  }

  // ---------------------------------------------------------------------
  // Sending and routing single packets
  // ---------------------------------------------------------------------

  /** Injects a new packet at this node: queued on the input queue with zero hops, and counted as sent. */
  function SendPacket(n: Node, dest: Coord, data: string, id: nat, memoryRequest: bool, size: int): Node
  {
    var p := Packet(n.pos, dest, data, id, 0, memoryRequest, size);
    n.(inputQueue := n.inputQueue + [p],
       packetsSent := n.packetsSent + 1,
       bytesSent := n.bytesSent + size,
       trafficByType :=
         if memoryRequest then n.trafficByType.(memoryRequest := Tally(n.trafficByType.memoryRequest, size))
         else n.trafficByType.(data := Tally(n.trafficByType.data, size)))
  }

  /**
   * Routes one packet: at its destination it is delivered (received
   * counters, hop total and the LOCAL tally grow), otherwise it is appended
   * to the output queue of the routed direction and counted as forwarded.
   */
  function RoutePacket(n: Node, p: Packet): Node
  {
    var d := Route(n.cfg, n.pos, p.destination);
    if d == Local then
      n.(packetsReceived := n.packetsReceived + 1,
         bytesReceived := n.bytesReceived + p.sizeBytes,
         totalHopCount := n.totalHopCount + p.hopCount,
         trafficByDirection := n.trafficByDirection.Set(Local, Tally(n.trafficByDirection.Get(Local), p.sizeBytes)))
    else
      n.(outputQueues := n.outputQueues.Set(d, n.outputQueues.Get(d) + [p]),
         packetsForwarded := n.packetsForwarded + 1,
         bytesForwarded := n.bytesForwarded + p.sizeBytes,
         trafficByDirection := n.trafficByDirection.Set(d, Tally(n.trafficByDirection.Get(d), p.sizeBytes)))
  }

  /** Fields routing never touches: identity, wiring and the send-side counters. */
  predicate SameSetup(a: Node, b: Node)
  {
    a.nodeId == b.nodeId && a.pos == b.pos && a.cfg == b.cfg && a.workload == b.workload &&
    a.neighbors == b.neighbors &&
    a.packetsSent == b.packetsSent && a.bytesSent == b.bytesSent && a.trafficByType == b.trafficByType
  }

  /** The routing phase: pops the input queue front to back, routing each packet. */
  function RouteAll(n: Node): (r: Node)
    ensures r.inputQueue == []
    ensures SameSetup(n, r)
    decreases |n.inputQueue|
  {
    if |n.inputQueue| == 0 then n
    else RouteAll(RoutePacket(n.(inputQueue := n.inputQueue[1..]), n.inputQueue[0]))
  }

  /** The routing phase as the loop the simulator runs. */
  method RouteInputQueue(n: Node) returns (r: Node)
    ensures r == RouteAll(n)
  {
    r := n;
    while |r.inputQueue| > 0
      invariant RouteAll(r) == RouteAll(n)
      decreases |r.inputQueue|
    {
      var p := r.inputQueue[0];
      r := RoutePacket(r.(inputQueue := r.inputQueue[1..]), p);
    }
  }

  // ---------------------------------------------------------------------
  // What the routing phase does, packet by packet
  // ---------------------------------------------------------------------

  /** The packets of `q`, in queue order, that the router at `pos` sends in direction `d`. */
  function RoutedTo(cfg: TopoConfig, pos: Coord, q: seq<Packet>, d: Direction): (r: seq<Packet>)
    ensures |r| <= |q|
  {
    if q == [] then []
    else (if Route(cfg, pos, q[0].destination) == d then [q[0]] else []) + RoutedTo(cfg, pos, q[1..], d)
  }

  /** Every packet routed to d comes from the queue and is one the router sends in direction d. */
  lemma {:induction false} RoutedToMembers(cfg: TopoConfig, pos: Coord, q: seq<Packet>, d: Direction, p: Packet)
    requires p in RoutedTo(cfg, pos, q, d)
    ensures p in q && Route(cfg, pos, p.destination) == d
    decreases |q|
  {
    if q != [] && p !in (if Route(cfg, pos, q[0].destination) == d then [q[0]] else []) {
      RoutedToMembers(cfg, pos, q[1..], d, p);
    }
  }

  function SizeSum(q: seq<Packet>): int
  {
    if q == [] then 0 else q[0].sizeBytes + SizeSum(q[1..])
  }

  function HopSum(q: seq<Packet>): int
  {
    if q == [] then 0 else q[0].hopCount + HopSum(q[1..])
  }

  lemma {:induction false} HopSumAppend(a: seq<Packet>, b: seq<Packet>)
    ensures HopSum(a + b) == HopSum(a) + HopSum(b)
  {
    if a == [] {
      assert a + b == b;
    } else {
      assert (a + b)[1..] == a[1..] + b;
      HopSumAppend(a[1..], b);
    }
  }

  lemma {:induction false} SizeSumAppend(a: seq<Packet>, b: seq<Packet>)
    ensures SizeSum(a + b) == SizeSum(a) + SizeSum(b)
  {
    if a == [] {
      assert a + b == b;
    } else {
      assert (a + b)[1..] == a[1..] + b;
      SizeSumAppend(a[1..], b);
    }
  }

  /** The effect of routing one packet on the queue and tally of one direction. */
  lemma RoutePacketDirection(n: Node, p: Packet, d: Direction)
    ensures var r := RoutePacket(n, p);
            var hit := Route(n.cfg, n.pos, p.destination) == d;
            && r.outputQueues.Get(d) == n.outputQueues.Get(d) + (if hit && d != Local then [p] else [])
            && r.trafficByDirection.Get(d)
               == (if hit then Tally(n.trafficByDirection.Get(d), p.sizeBytes) else n.trafficByDirection.Get(d))
            && r.inputQueue == n.inputQueue && r.cfg == n.cfg && r.pos == n.pos
  {
  }

  /** RoutedTo of a non-empty queue: the head's contribution, then the tail's. */
  lemma RoutedToCons(cfg: TopoConfig, pos: Coord, q: seq<Packet>, d: Direction)
    requires q != []
    ensures var head := if Route(cfg, pos, q[0].destination) == d then [q[0]] else [];
            && RoutedTo(cfg, pos, q, d) == head + RoutedTo(cfg, pos, q[1..], d)
            && SizeSum(RoutedTo(cfg, pos, q, d)) == SizeSum(head) + SizeSum(RoutedTo(cfg, pos, q[1..], d))
            && |RoutedTo(cfg, pos, q, d)| == |head| + |RoutedTo(cfg, pos, q[1..], d)|
  {
    var head := if Route(cfg, pos, q[0].destination) == d then [q[0]] else [];
    SizeSumAppend(head, RoutedTo(cfg, pos, q[1..], d));
  }

  /**
   * The routing phase empties the input queue and appends, in FIFO order,
   * exactly the packets routed to each direction to that direction's output
   * queue; delivered packets are queued nowhere.
   */
  lemma {:induction false} RouteAllQueues(n: Node, d: Direction)
    ensures RouteAll(n).outputQueues.Get(d)
            == n.outputQueues.Get(d) + (if d == Local then [] else RoutedTo(n.cfg, n.pos, n.inputQueue, d))
    decreases |n.inputQueue|
  {
    var q := n.inputQueue;
    if |q| > 0 {
      var n1 := RoutePacket(n.(inputQueue := q[1..]), q[0]);
      RoutePacketDirection(n.(inputQueue := q[1..]), q[0], d);
      RouteAllQueues(n1, d);
      RoutedToCons(n.cfg, n.pos, q, d);
      assert RouteAll(n) == RouteAll(n1);
      if d != Local {
        var head := if Route(n.cfg, n.pos, q[0].destination) == d then [q[0]] else [];
        var rest := RoutedTo(n.cfg, n.pos, q[1..], d);
        assert n.outputQueues.Get(d) + head + rest == n.outputQueues.Get(d) + (head + rest);
      } else {
        assert n1.outputQueues.Get(d) == n.outputQueues.Get(d) + [];
      }
    }
  }

  /** The per-direction tallies grow by the number and total size of the packets routed that way. */
  lemma {:induction false} RouteAllTraffic(n: Node, d: Direction)
    ensures RouteAll(n).trafficByDirection.Get(d)
            == Traffic(n.trafficByDirection.Get(d).packets + |RoutedTo(n.cfg, n.pos, n.inputQueue, d)|,
                       n.trafficByDirection.Get(d).bytes + SizeSum(RoutedTo(n.cfg, n.pos, n.inputQueue, d)))
    decreases |n.inputQueue|
  {
    var q := n.inputQueue;
    if |q| > 0 {
      var n1 := RoutePacket(n.(inputQueue := q[1..]), q[0]);
      RoutePacketDirection(n.(inputQueue := q[1..]), q[0], d);
      RouteAllTraffic(n1, d);
      RoutedToCons(n.cfg, n.pos, q, d);
      assert SizeSum([q[0]]) == q[0].sizeBytes;
      assert RouteAll(n) == RouteAll(n1);
    }
  }

  /**
   * Every routed packet is counted once: delivered ones as received (bytes
   * and hop counts included), the rest as forwarded.
   */
  lemma {:induction false} RouteAllCounters(n: Node)
    ensures var delivered := RoutedTo(n.cfg, n.pos, n.inputQueue, Local);
            && RouteAll(n).packetsReceived == n.packetsReceived + |delivered|
            && RouteAll(n).bytesReceived == n.bytesReceived + SizeSum(delivered)
            && RouteAll(n).totalHopCount == n.totalHopCount + HopSum(delivered)
            && RouteAll(n).packetsForwarded == n.packetsForwarded + |n.inputQueue| - |delivered|
            && RouteAll(n).bytesForwarded == n.bytesForwarded + SizeSum(n.inputQueue) - SizeSum(delivered)
    decreases |n.inputQueue|
  {
    var q := n.inputQueue;
    if |q| > 0 {
      var n1 := RoutePacket(n.(inputQueue := q[1..]), q[0]);
      RouteAllCounters(n1);
      RoutedToCons(n.cfg, n.pos, q, Local);
      var head := if Route(n.cfg, n.pos, q[0].destination) == Local then [q[0]] else [];
      HopSumAppend(head, RoutedTo(n.cfg, n.pos, q[1..], Local));
      assert SizeSum([q[0]]) == q[0].sizeBytes;
      assert HopSum([q[0]]) == q[0].hopCount;
      assert RouteAll(n) == RouteAll(n1);
    }
  }

  // ---------------------------------------------------------------------
  // Packet ids held in queues
  // ---------------------------------------------------------------------

  function Ids(q: seq<Packet>): (r: multiset<nat>)
    ensures |r| == |q|
  {
    if q == [] then multiset{} else multiset{q[0].packetId} + Ids(q[1..])
  }

  lemma {:induction false} IdsAppend(a: seq<Packet>, b: seq<Packet>)
    ensures Ids(a + b) == Ids(a) + Ids(b)
  {
    if a == [] {
      assert a + b == b;
    } else {
      assert (a + b)[1..] == a[1..] + b;
      IdsAppend(a[1..], b);
    }
  }

  /** Ids of every packet waiting at the node, on the input queue or on any output queue. */
  function QueuedIds(n: Node): multiset<nat>
  {
    Ids(n.inputQueue) + Ids(n.outputQueues.north) + Ids(n.outputQueues.south)
    + Ids(n.outputQueues.east) + Ids(n.outputQueues.west) + Ids(n.outputQueues.local)
  }

  /**
   * Queued ids of a node whose output queue in direction d changes and
   * whose other queues stay: the change in that queue's ids is the change
   * in the node's.
   */
  lemma ReplaceOutputIds(n: Node, m: Node, d: Direction, removed: multiset<nat>, added: multiset<nat>)
    requires m.inputQueue == n.inputQueue
    requires forall e :: e != d ==> m.outputQueues.Get(e) == n.outputQueues.Get(e)
    requires Ids(m.outputQueues.Get(d)) + removed == Ids(n.outputQueues.Get(d)) + added
    ensures QueuedIds(m) + removed == QueuedIds(n) + added
  {
    var a, b := n.outputQueues, m.outputQueues;
    assert Ids(b.Get(d)) + removed == Ids(a.Get(d)) + added;
    match d
    case North =>
      assert b.south == a.south && b.east == a.east && b.west == a.west && b.local == a.local by {
        assert b.Get(South) == a.Get(South) && b.Get(East) == a.Get(East) && b.Get(West) == a.Get(West) && b.Get(Local) == a.Get(Local);
      }
      ReplaceOneOfSix(Ids(n.inputQueue), Ids(a.north), Ids(a.south), Ids(a.east), Ids(a.west), Ids(a.local),
                      Ids(n.inputQueue), Ids(b.north), Ids(b.south), Ids(b.east), Ids(b.west), Ids(b.local), removed, added);
    case South =>
      assert b.north == a.north && b.east == a.east && b.west == a.west && b.local == a.local by {
        assert b.Get(North) == a.Get(North) && b.Get(East) == a.Get(East) && b.Get(West) == a.Get(West) && b.Get(Local) == a.Get(Local);
      }
      ReplaceOneOfSix(Ids(n.inputQueue), Ids(a.north), Ids(a.south), Ids(a.east), Ids(a.west), Ids(a.local),
                      Ids(n.inputQueue), Ids(b.north), Ids(b.south), Ids(b.east), Ids(b.west), Ids(b.local), removed, added);
    case East =>
      assert b.north == a.north && b.south == a.south && b.west == a.west && b.local == a.local by {
        assert b.Get(North) == a.Get(North) && b.Get(South) == a.Get(South) && b.Get(West) == a.Get(West) && b.Get(Local) == a.Get(Local);
      }
      ReplaceOneOfSix(Ids(n.inputQueue), Ids(a.north), Ids(a.south), Ids(a.east), Ids(a.west), Ids(a.local),
                      Ids(n.inputQueue), Ids(b.north), Ids(b.south), Ids(b.east), Ids(b.west), Ids(b.local), removed, added);
    case West =>
      assert b.north == a.north && b.south == a.south && b.east == a.east && b.local == a.local by {
        assert b.Get(North) == a.Get(North) && b.Get(South) == a.Get(South) && b.Get(East) == a.Get(East) && b.Get(Local) == a.Get(Local);
      }
      ReplaceOneOfSix(Ids(n.inputQueue), Ids(a.north), Ids(a.south), Ids(a.east), Ids(a.west), Ids(a.local),
                      Ids(n.inputQueue), Ids(b.north), Ids(b.south), Ids(b.east), Ids(b.west), Ids(b.local), removed, added);
    case Local =>
      assert b.north == a.north && b.south == a.south && b.east == a.east && b.west == a.west by {
        assert b.Get(North) == a.Get(North) && b.Get(South) == a.Get(South) && b.Get(East) == a.Get(East) && b.Get(West) == a.Get(West);
      }
      ReplaceOneOfSix(Ids(n.inputQueue), Ids(a.north), Ids(a.south), Ids(a.east), Ids(a.west), Ids(a.local),
                      Ids(n.inputQueue), Ids(b.north), Ids(b.south), Ids(b.east), Ids(b.west), Ids(b.local), removed, added);
  }

  /** Multiset bookkeeping of a six-part sum in which one part changes and the others stay. */
  lemma ReplaceOneOfSix(a0: multiset<nat>, a1: multiset<nat>, a2: multiset<nat>, a3: multiset<nat>, a4: multiset<nat>, a5: multiset<nat>,
                        b0: multiset<nat>, b1: multiset<nat>, b2: multiset<nat>, b3: multiset<nat>, b4: multiset<nat>, b5: multiset<nat>,
                        removed: multiset<nat>, added: multiset<nat>)
    requires || (b0 + removed == a0 + added && b1 == a1 && b2 == a2 && b3 == a3 && b4 == a4 && b5 == a5)
             || (b0 == a0 && b1 + removed == a1 + added && b2 == a2 && b3 == a3 && b4 == a4 && b5 == a5)
             || (b0 == a0 && b1 == a1 && b2 + removed == a2 + added && b3 == a3 && b4 == a4 && b5 == a5)
             || (b0 == a0 && b1 == a1 && b2 == a2 && b3 + removed == a3 + added && b4 == a4 && b5 == a5)
             || (b0 == a0 && b1 == a1 && b2 == a2 && b3 == a3 && b4 + removed == a4 + added && b5 == a5)
             || (b0 == a0 && b1 == a1 && b2 == a2 && b3 == a3 && b4 == a4 && b5 + removed == a5 + added)
    ensures b0 + b1 + b2 + b3 + b4 + b5 + removed == a0 + a1 + a2 + a3 + a4 + a5 + added
  {
    forall o
      ensures (b0 + b1 + b2 + b3 + b4 + b5 + removed)[o] == (a0 + a1 + a2 + a3 + a4 + a5 + added)[o]
    {
      assert || (b0 + removed)[o] == (a0 + added)[o] || (b1 + removed)[o] == (a1 + added)[o]
             || (b2 + removed)[o] == (a2 + added)[o] || (b3 + removed)[o] == (a3 + added)[o]
             || (b4 + removed)[o] == (a4 + added)[o] || (b5 + removed)[o] == (a5 + added)[o];
    }
  }

  /** Queued ids of a node whose input queue changes and whose output queues stay. */
  lemma ReplaceInputIds(n: Node, m: Node, removed: multiset<nat>, added: multiset<nat>)
    requires m.outputQueues == n.outputQueues
    requires Ids(m.inputQueue) + removed == Ids(n.inputQueue) + added
    ensures QueuedIds(m) + removed == QueuedIds(n) + added
  {
    var a := n.outputQueues;
    ReplaceOneOfSix(Ids(n.inputQueue), Ids(a.north), Ids(a.south), Ids(a.east), Ids(a.west), Ids(a.local),
                    Ids(m.inputQueue), Ids(a.north), Ids(a.south), Ids(a.east), Ids(a.west), Ids(a.local), removed, added);
  }

  /** Ids of the packets the next routing phase delivers at this node. */
  function DeliveredIds(n: Node): multiset<nat>
  {
    Ids(RoutedTo(n.cfg, n.pos, n.inputQueue, Local))
  }

  lemma RoutedToIdsCons(cfg: TopoConfig, pos: Coord, q: seq<Packet>, d: Direction)
    requires q != []
    ensures Ids(RoutedTo(cfg, pos, q, d))
            == (if Route(cfg, pos, q[0].destination) == d then multiset{q[0].packetId} else multiset{})
               + Ids(RoutedTo(cfg, pos, q[1..], d))
  {
    var head := if Route(cfg, pos, q[0].destination) == d then [q[0]] else [];
    assert RoutedTo(cfg, pos, q, d) == head + RoutedTo(cfg, pos, q[1..], d);
    IdsAppend(head, RoutedTo(cfg, pos, q[1..], d));
  }

  /** Routing one packet either delivers it or adds its id to one output queue. */
  lemma RoutePacketIds(n: Node, p: Packet)
    ensures QueuedIds(RoutePacket(n, p))
            == QueuedIds(n) + (if Route(n.cfg, n.pos, p.destination) == Local then multiset{} else multiset{p.packetId})
  {
    var d := Route(n.cfg, n.pos, p.destination);
    if d != Local {
      var q := n.outputQueues.Get(d);
      assert Ids(q + [p]) == Ids(q) + multiset{p.packetId} by {
        IdsAppend(q, [p]);
        assert [p][1..] == [];
      }
      ReplaceOutputIds(n, RoutePacket(n, p), d, multiset{}, multiset{p.packetId});
    }
  }

  /**
   * Conservation across the routing phase: the packets it delivers leave
   * the node's queues and every other packet stays queued at the node.
   */
  lemma {:induction false} RouteAllIds(n: Node)
    ensures QueuedIds(RouteAll(n)) + DeliveredIds(n) == QueuedIds(n)
    decreases |n.inputQueue|
  {
    var q := n.inputQueue;
    if |q| > 0 {
      var n1 := RoutePacket(n.(inputQueue := q[1..]), q[0]);
      var local := Route(n.cfg, n.pos, q[0].destination) == Local;
      RouteFrontIds(n);
      RouteAllIds(n1);
      assert RouteAll(n) == RouteAll(n1);
      MultisetShift(QueuedIds(RouteAll(n1)), DeliveredIds(n1), QueuedIds(n1), QueuedIds(n.(inputQueue := q[1..])),
                    multiset{q[0].packetId}, local);
    }
  }

  /** Routing the front packet of the input queue: where its id goes, queued or delivered. */
  lemma RouteFrontIds(n: Node)
    requires |n.inputQueue| > 0
    ensures var q := n.inputQueue;
            var n0 := n.(inputQueue := q[1..]);
            var n1 := RoutePacket(n0, q[0]);
            var x := multiset{q[0].packetId};
            var local := Route(n.cfg, n.pos, q[0].destination) == Local;
            && QueuedIds(n1) == QueuedIds(n0) + (if local then multiset{} else x)
            && QueuedIds(n) == x + QueuedIds(n0)
            && DeliveredIds(n) == (if local then x else multiset{}) + DeliveredIds(n1)
  {
    var q := n.inputQueue;
    var n0 := n.(inputQueue := q[1..]);
    var x := multiset{q[0].packetId};
    RoutePacketIds(n0, q[0]);
    assert QueuedIds(n) == x + QueuedIds(n0) by {
      assert Ids(q) + multiset{} == Ids(q[1..]) + x;
      ReplaceInputIds(n0, n, multiset{}, x);
    }
    RoutePacketDirection(n0, q[0], Local);
    RoutedToIdsCons(n.cfg, n.pos, q, Local);
  }

  /** The multiset bookkeeping of one routed packet: it ends up either delivered or queued. */
  lemma MultisetShift(done: multiset<nat>, delivered: multiset<nat>, before: multiset<nat>, rest: multiset<nat>,
                      x: multiset<nat>, local: bool)
    requires done + delivered == before
    requires before == rest + (if local then multiset{} else x)
    ensures done + ((if local then x else multiset{}) + delivered) == x + rest
  {
    if local {
      assert done + (x + delivered) == (done + delivered) + x;
    } else {
      assert done + (multiset{} + delivered) == done + delivered;
    }
  }

  /** Injecting a packet adds exactly its id to the node's queues and one to its sent count. */
  lemma SendPacketIds(n: Node, dest: Coord, data: string, id: nat, memoryRequest: bool, size: int)
    ensures var r := SendPacket(n, dest, data, id, memoryRequest, size);
            && QueuedIds(r) == QueuedIds(n) + multiset{id}
            && r.packetsSent == n.packetsSent + 1
            && r.packetsReceived == n.packetsReceived
            && DeliveredIds(r) == DeliveredIds(n) + (if dest == n.pos then multiset{id} else multiset{})
  {
    var p := Packet(n.pos, dest, data, id, 0, memoryRequest, size);
    var r := SendPacket(n, dest, data, id, memoryRequest, size);
    assert r.inputQueue == n.inputQueue + [p];
    assert Ids([p]) == multiset{id} by {
      assert [p][1..] == [];
    }
    assert QueuedIds(r) == QueuedIds(n) + multiset{id} by {
      IdsAppend(n.inputQueue, [p]);
      ReplaceInputIds(n, r, multiset{}, multiset{id});
      assert QueuedIds(r) + multiset{} == QueuedIds(r);
    }
    assert DeliveredIds(r) == DeliveredIds(n) + (if dest == n.pos then multiset{id} else multiset{}) by {
      RoutedToAppend(n.cfg, n.pos, n.inputQueue, [p], Local);
      IdsAppend(RoutedTo(n.cfg, n.pos, n.inputQueue, Local), RoutedTo(n.cfg, n.pos, [p], Local));
    }
  }

  lemma {:induction false} RoutedToAppend(cfg: TopoConfig, pos: Coord, a: seq<Packet>, b: seq<Packet>, d: Direction)
    ensures RoutedTo(cfg, pos, a + b, d) == RoutedTo(cfg, pos, a, d) + RoutedTo(cfg, pos, b, d)
  {
    if a == [] {
      assert a + b == b;
    } else {
      assert (a + b)[1..] == a[1..] + b;
      RoutedToAppend(cfg, pos, a[1..], b, d);
    }
  }

  // ---------------------------------------------------------------------
  // Hop counts
  // ---------------------------------------------------------------------

  /**
   * A packet waiting at `at` whose hop count plus the distance still to go
   * equals the distance from its source: it has only ever moved closer.
   */
  predicate InFlight(t: TopologyType, X: nat, Y: nat, at: Coord, p: Packet)
  {
    InGrid(X, Y, p.source) && InGrid(X, Y, p.destination) &&
    p.hopCount + Dist(t, X, Y, at, p.destination) == Dist(t, X, Y, p.source, p.destination)
  }

  /** Every packet on the output queue of direction `d` was routed that way and is in flight. */
  predicate OutQueueOk(t: TopologyType, X: nat, Y: nat, n: Node, d: Direction)
  {
    forall p :: p in n.outputQueues.Get(d) ==>
      d != Local && Route(n.cfg, n.pos, p.destination) == d && InFlight(t, X, Y, n.pos, p)
  }

  /**
   * Queue invariant of a node: every waiting packet is in flight, and every
   * packet on an output queue was routed to that queue's direction (so the
   * LOCAL output queue stays empty).
   */
  predicate NodeOk(t: TopologyType, X: nat, Y: nat, n: Node)
  {
    Consistent(n.cfg, t, X, Y) && InGrid(X, Y, n.pos) &&
    (forall p :: p in n.inputQueue ==> InFlight(t, X, Y, n.pos, p)) &&
    OutQueueOk(t, X, Y, n, North) && OutQueueOk(t, X, Y, n, South) && OutQueueOk(t, X, Y, n, East) &&
    OutQueueOk(t, X, Y, n, West) && OutQueueOk(t, X, Y, n, Local)
  }

  /** Sum of the source-to-destination distances of a queue's packets. */
  function DistSum(t: TopologyType, X: nat, Y: nat, q: seq<Packet>): int
  {
    if q == [] then 0 else Dist(t, X, Y, q[0].source, q[0].destination) + DistSum(t, X, Y, q[1..])
  }

  /** Injecting a packet for an in-grid destination keeps the queue invariant. */
  lemma SendPacketOk(t: TopologyType, X: nat, Y: nat, n: Node, dest: Coord, data: string, id: nat,
                     memoryRequest: bool, size: int)
    requires NodeOk(t, X, Y, n) && InGrid(X, Y, dest)
    ensures NodeOk(t, X, Y, SendPacket(n, dest, data, id, memoryRequest, size))
  {
    var r := SendPacket(n, dest, data, id, memoryRequest, size);
    assert r.outputQueues == n.outputQueues && r.pos == n.pos && r.cfg == n.cfg;
    assert forall e :: OutQueueOk(t, X, Y, n, e) ==> OutQueueOk(t, X, Y, r, e);
    DistNonNegative(t, X, Y, n.pos, dest);
  }

  /** Routing one in-flight packet keeps the queue invariant; a delivered packet has travelled its distance. */
  lemma RoutePacketOk(t: TopologyType, X: nat, Y: nat, n: Node, p: Packet)
    requires NodeOk(t, X, Y, n) && InFlight(t, X, Y, n.pos, p)
    ensures NodeOk(t, X, Y, RoutePacket(n, p))
    ensures Route(n.cfg, n.pos, p.destination) == Local ==> p.hopCount == Dist(t, X, Y, p.source, p.destination)
  {
    var n1 := RoutePacket(n, p);
    var d := Route(n.cfg, n.pos, p.destination);
    if d == Local {
      DistNonNegative(t, X, Y, n.pos, p.destination);
    }
    forall e
      ensures OutQueueOk(t, X, Y, n1, e)
    {
      RoutePacketDirection(n, p, e);
      assert OutQueueOk(t, X, Y, n, e);
    }
    RoutePacketDirection(n, p, Local);
  }

  /** The routing phase keeps the queue invariant. */
  lemma {:induction false} RouteAllOk(t: TopologyType, X: nat, Y: nat, n: Node)
    requires NodeOk(t, X, Y, n)
    ensures NodeOk(t, X, Y, RouteAll(n))
    decreases |n.inputQueue|
  {
    var q := n.inputQueue;
    if |q| > 0 {
      var n0 := n.(inputQueue := q[1..]);
      assert q[0] in q;
      assert forall p' :: p' in q[1..] ==> p' in q;
      assert NodeOk(t, X, Y, n0);
      RoutePacketOk(t, X, Y, n0, q[0]);
      RoutePacketDirection(n0, q[0], Local);
      RouteAllOk(t, X, Y, RoutePacket(n0, q[0]));
    }
  }

  /**
   * Each packet the routing phase delivers adds exactly its
   * source-to-destination distance to the node's hop total: a delivered
   * packet has travelled the shortest route.
   */
  lemma {:induction false} RouteAllHops(t: TopologyType, X: nat, Y: nat, n: Node)
    requires NodeOk(t, X, Y, n)
    ensures RouteAll(n).totalHopCount
            == n.totalHopCount + DistSum(t, X, Y, RoutedTo(n.cfg, n.pos, n.inputQueue, Local))
    decreases |n.inputQueue|
  {
    var q := n.inputQueue;
    if |q| > 0 {
      var n0 := n.(inputQueue := q[1..]);
      assert q[0] in q;
      assert forall p' :: p' in q[1..] ==> p' in q;
      assert NodeOk(t, X, Y, n0);
      RoutePacketOk(t, X, Y, n0, q[0]);
      RoutePacketDirection(n0, q[0], Local);
      var n1 := RoutePacket(n0, q[0]);
      RouteAllHops(t, X, Y, n1);
      assert RouteAll(n) == RouteAll(n1);
      var rest := RoutedTo(n.cfg, n.pos, q[1..], Local);
      RoutedToCons(n.cfg, n.pos, q, Local);
      assert n1.cfg == n.cfg && n1.pos == n.pos && n1.inputQueue == q[1..];
      if Route(n.cfg, n.pos, q[0].destination) == Local {
        assert ([q[0]] + rest)[1..] == rest;
        assert n1.totalHopCount == n.totalHopCount + q[0].hopCount;
        assert DistSum(t, X, Y, [q[0]] + rest)
               == Dist(t, X, Y, q[0].source, q[0].destination) + DistSum(t, X, Y, rest);
      } else {
        assert [] + rest == rest;
        assert n1.totalHopCount == n.totalHopCount;
      }
    }
  }

  // ---------------------------------------------------------------------
  // Agreement of the counters with the detailed tallies
  // ---------------------------------------------------------------------

  /**
   * The counters agree with the detailed tallies: received packets are the
   * LOCAL tally, forwarded packets the four link tallies, and sent packets
   * the data plus memory-request tallies (bytes likewise).
   */
  predicate TalliesAgree(n: Node)
  {
    var t := n.trafficByDirection;
    && n.packetsReceived == t.local.packets && n.bytesReceived == t.local.bytes
    && n.packetsForwarded == t.north.packets + t.south.packets + t.east.packets + t.west.packets
    && n.bytesForwarded == t.north.bytes + t.south.bytes + t.east.bytes + t.west.bytes
    && n.packetsSent == n.trafficByType.data.packets + n.trafficByType.memoryRequest.packets
    && n.bytesSent == n.trafficByType.data.bytes + n.trafficByType.memoryRequest.bytes
  }

  lemma NewNodeTallies(id: nat, pos: Coord, cfg: TopoConfig)
    ensures TalliesAgree(NewNode(id, pos, cfg))
    ensures NewNode(id, pos, cfg).inputQueue == [] && QueuedIds(NewNode(id, pos, cfg)) == multiset{}
  {
  }

  /** Sending and routing keep the counters in agreement with the tallies. */
  lemma SendPacketTallies(n: Node, dest: Coord, data: string, id: nat, memoryRequest: bool, size: int)
    requires TalliesAgree(n)
    ensures TalliesAgree(SendPacket(n, dest, data, id, memoryRequest, size))
  {
  }

  lemma RoutePacketTallies(n: Node, p: Packet)
    requires TalliesAgree(n)
    ensures TalliesAgree(RoutePacket(n, p))
  {
    var d := Route(n.cfg, n.pos, p.destination);
    match d
    case North =>
    case South =>
    case East =>
    case West =>
    case Local =>
  }

  lemma {:induction false} RouteAllTallies(n: Node)
    requires TalliesAgree(n)
    ensures TalliesAgree(RouteAll(n))
    decreases |n.inputQueue|
  {
    var q := n.inputQueue;
    if |q| > 0 {
      var n0 := n.(inputQueue := q[1..]);
      RoutePacketTallies(n0, q[0]);
      RoutePacketDirection(n0, q[0], Local);
      RouteAllTallies(RoutePacket(n0, q[0]));
    }
  }

  // ---------------------------------------------------------------------
  // Node report
  // ---------------------------------------------------------------------

  /** The integer part of a node's report; average latency and average hop count are floats and left out. */
  datatype NodeInfo = NodeInfo(position: Coord, nodeId: nat, workload: string,
                               packetsSent: nat, packetsReceived: nat, packetsForwarded: nat,
                               bytesSent: int, bytesReceived: int, bytesForwarded: int,
                               totalPackets: nat, totalBytes: int,
                               trafficByDirection: PerDirection<Traffic>, trafficByType: ByType)

  function GetNodeInfo(n: Node): NodeInfo
  {
    NodeInfo(n.pos, n.nodeId, n.workload.description,
             n.packetsSent, n.packetsReceived, n.packetsForwarded,
             n.bytesSent, n.bytesReceived, n.bytesForwarded,
             n.packetsSent + n.packetsReceived + n.packetsForwarded,
             n.bytesSent + n.bytesReceived + n.bytesForwarded,
             n.trafficByDirection, n.trafficByType)
  }

  /**
   * The report's totals count every packet event once: sending adds one
   * packet and its size, and a routing phase adds one per routed packet
   * (delivered or forwarded) and their sizes.
   */
  lemma NodeInfoTotals(n: Node, dest: Coord, data: string, id: nat, memoryRequest: bool, size: int)
    ensures GetNodeInfo(SendPacket(n, dest, data, id, memoryRequest, size)).totalPackets == GetNodeInfo(n).totalPackets + 1
    ensures GetNodeInfo(SendPacket(n, dest, data, id, memoryRequest, size)).totalBytes == GetNodeInfo(n).totalBytes + size
    ensures GetNodeInfo(RouteAll(n)).totalPackets == GetNodeInfo(n).totalPackets + |n.inputQueue|
    ensures GetNodeInfo(RouteAll(n)).totalBytes == GetNodeInfo(n).totalBytes + SizeSum(n.inputQueue)
  {
    RouteAllCounters(n);
  }
}
