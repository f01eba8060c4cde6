/**
 * What the 4x4 simulator's operations do and keep: the routing phase
 * empties the input queue in order into the right output queues, a transfer
 * moves at most one packet per direction and counts exactly the packets it
 * moves, and every operation keeps the table well formed and the statistics
 * equal to the counters.
 */
module SimpleInvariant {
  import opened Wrappers
  import opened Grid
  import opened Routing
  import opened StatNames
  import opened MockStatistics
  import opened SimpleNet

  // ---------------------------------------------------------------------
  // Statistic names of different nodes or metrics never collide
  // ---------------------------------------------------------------------

  lemma StatOfDistinct(a: Coord, m1: string, b: Coord, m2: string)
    requires a != b || m1 != m2
    ensures StatOf(a, m1) != StatOf(b, m2)
  {
    if StatOf(a, m1) == StatOf(b, m2) {
      StatNameInjective(a.x, a.y, m1, b.x, b.y, m2);
    }
  }

  /** No statistic of one node is named like a statistic of another. */
  lemma NodesApart(a: Coord, b: Coord)
    requires a != b
    ensures forall m1, m2 :: StatOf(a, m1) != StatOf(b, m2)
  {
    forall m1, m2
      ensures StatOf(a, m1) != StatOf(b, m2)
    {
      StatOfDistinct(a, m1, b, m2);
    }
  }

  lemma MetricsDistinct()
    ensures SentStat != ReceivedStat && SentStat != ForwardedStat && SentStat != HopStat && SentStat != QueueStat
    ensures ReceivedStat != ForwardedStat && ReceivedStat != HopStat && ReceivedStat != QueueStat
    ensures ForwardedStat != HopStat && ForwardedStat != QueueStat && HopStat != QueueStat
  {
    assert SentStat[0] != QueueStat[0];
  }

  /** Recording a statistic of node a leaves the statistics of a node elsewhere as they were. */
  lemma NoteElsewhere(stats: map<string, Stat>, on: bool, a: Coord, m: string, v: int, n: MeshNode)
    requires n.pos != a && NodeStatsOk(n, stats)
    ensures NodeStatsOk(n, Note(stats, on, StatOf(a, m), v))
  {
    StatOfDistinct(n.pos, SentStat, a, m);
    StatOfDistinct(n.pos, ReceivedStat, a, m);
    StatOfDistinct(n.pos, ForwardedStat, a, m);
  }

  /** Recording a node's hop count or queue length leaves its statistics matching its counters. */
  lemma NoteUncounted(stats: map<string, Stat>, on: bool, m: string, v: int, n: MeshNode)
    requires m == HopStat || m == QueueStat
    requires NodeStatsOk(n, stats)
    ensures NodeStatsOk(n, Note(stats, on, StatOf(n.pos, m), v))
  {
    MetricsDistinct();
    StatOfDistinct(n.pos, SentStat, n.pos, m);
    StatOfDistinct(n.pos, ReceivedStat, n.pos, m);
    StatOfDistinct(n.pos, ForwardedStat, n.pos, m);
  }

  /** Counting one more of a node's packets together with its statistic keeps the two equal. */
  lemma NoteCounted(stats: map<string, Stat>, m: string, n: MeshNode, n1: MeshNode)
    requires NodeStatsOk(n, stats) && n1.pos == n.pos
    requires m == SentStat || m == ReceivedStat || m == ForwardedStat
    requires n1.packetsSent == n.packetsSent + (if m == SentStat then 1 else 0)
    requires n1.packetsReceived == n.packetsReceived + (if m == ReceivedStat then 1 else 0)
    requires n1.packetsForwarded == n.packetsForwarded + (if m == ForwardedStat then 1 else 0)
    ensures NodeStatsOk(n1, Note(stats, true, StatOf(n.pos, m), 1))
  {
    MetricsDistinct();
    if m != SentStat {
      StatOfDistinct(n.pos, SentStat, n.pos, m);
    }
    if m != ReceivedStat {
      StatOfDistinct(n.pos, ReceivedStat, n.pos, m);
    }
    if m != ForwardedStat {
      StatOfDistinct(n.pos, ForwardedStat, n.pos, m);
    }
  }

  /** Statistics of every node but a survive a recording at a. */
  lemma NoteOthers(nodes: map<Coord, MeshNode>, stats: map<string, Stat>, on: bool, a: Coord, m: string, v: int)
    requires WellFormed(nodes)
    requires forall c :: c in nodes && c != a ==> NodeStatsOk(nodes[c], stats)
    ensures forall c :: c in nodes && c != a ==> NodeStatsOk(nodes[c], Note(stats, on, StatOf(a, m), v))
  {
    forall c | c in nodes && c != a
      ensures NodeStatsOk(nodes[c], Note(stats, on, StatOf(a, m), v))
    {
      NoteElsewhere(stats, on, a, m, v, nodes[c]);
    }
  }

  /** Replacing one node by one with the same position and wiring keeps the table well formed. */
  lemma ReplaceWellFormed(nodes: map<Coord, MeshNode>, c: Coord, n: MeshNode)
    requires WellFormed(nodes) && c in nodes
    requires n.pos == c && n.neighbors == nodes[c].neighbors
    ensures WellFormed(nodes[c := n])
  {
  }

  /** `registerStatistic` for the five statistics of a new node at c: all start at 0, matching its zero counters. */
  lemma RegisterNodeFresh(stats: map<string, Stat>, c: Coord)
    ensures NodeStatsOk(NewMeshNode(c), RegisterNode(stats, c))
  {
    MetricsDistinct();
    StatOfDistinct(c, SentStat, c, ReceivedStat);
    StatOfDistinct(c, SentStat, c, ForwardedStat);
    StatOfDistinct(c, SentStat, c, HopStat);
    StatOfDistinct(c, SentStat, c, QueueStat);
    StatOfDistinct(c, ReceivedStat, c, ForwardedStat);
    StatOfDistinct(c, ReceivedStat, c, HopStat);
    StatOfDistinct(c, ReceivedStat, c, QueueStat);
    StatOfDistinct(c, ForwardedStat, c, HopStat);
    StatOfDistinct(c, ForwardedStat, c, QueueStat);
  }

  /** Registering a new node's statistics leaves the statistics of every node elsewhere untouched. */
  lemma RegisterNodeKeeps(stats: map<string, Stat>, c: Coord, n: MeshNode)
    requires n.pos != c && NodeStatsOk(n, stats)
    ensures NodeStatsOk(n, RegisterNode(stats, c))
  {
    NodesApart(c, n.pos);
  }

  // ---------------------------------------------------------------------
  // Sending
  // ---------------------------------------------------------------------

  /**
   * `send_message`: a source or destination outside the 4x4 grid changes
   * nothing, counter included; otherwise the counter rises by one and the
   * source gains one packet with that id, hop count 0 and its own position as
   * source, and one more sent packet; no other node changes.
   */
  lemma SendMessageEffect(net: Net, on: bool, counter: nat, sx: int, sy: int, dx: int, dy: int, msg: string)
    requires NetOk(net, on)
    ensures var (r, k) := SendMessage(net, on, counter, sx, sy, dx, dy, msg);
            if 0 <= sx < Size && 0 <= sy < Size && 0 <= dx < Size && 0 <= dy < Size then
              var src := Coord(sx, sy);
              && k == counter + 1
              && r.nodes[src] == net.nodes[src].(inputQueue := net.nodes[src].inputQueue + [SPacket(src, Coord(dx, dy), msg, k, 0)],
                                                 packetsSent := net.nodes[src].packetsSent + 1)
              && (forall c :: c in net.nodes && c != src ==> r.nodes[c] == net.nodes[c])
              && NetOk(r, on)
            else r == net && k == counter
  {
    if 0 <= sx < Size && 0 <= sy < Size && 0 <= dx < Size && 0 <= dy < Size {
      var src, dst := Coord(sx, sy), Coord(dx, dy);
      assert HasNode(net.nodes, sx, sy) && HasNode(net.nodes, dx, dy) by {
        assert InGrid(Size, Size, src) && InGrid(Size, Size, dst);
      }
      var r := SendPacket(net, on, src, dst, msg, counter + 1);
      assert SendMessage(net, on, counter, sx, sy, dx, dy, msg) == (r, counter + 1);
      assert net.nodes[src].pos == src;
      SendPacketShape(net, on, src, dst, msg, counter + 1);
      assert NetOk(r, on) by { SendPacketOk(net, on, src, dst, msg, counter + 1); }
    }
  }

  /** `send_packet` at c queues the new packet, counts it and changes no other node. */
  lemma SendPacketShape(net: Net, on: bool, c: Coord, dest: Coord, data: string, id: nat)
    requires c in net.nodes && net.nodes[c].pos == c
    ensures var n, r := net.nodes[c], SendPacket(net, on, c, dest, data, id);
            && r.nodes[c] == n.(inputQueue := n.inputQueue + [SPacket(c, dest, data, id, 0)], packetsSent := n.packetsSent + 1)
            && forall c2 :: c2 in net.nodes && c2 != c ==> r.nodes[c2] == net.nodes[c2]
  {
  }

  /** `send_packet` keeps the invariant: one more sent packet, one more on the sent statistic. */
  lemma SendPacketOk(net: Net, on: bool, c: Coord, dest: Coord, data: string, id: nat)
    requires NetOk(net, on) && c in net.nodes
    ensures NetOk(SendPacket(net, on, c, dest, data, id), on)
  {
    var r := SendPacket(net, on, c, dest, data, id);
    if on {
      SendPacketStats(net, c, dest, data, id);
    }
    ReplaceOk(net, on, c, r.nodes[c], r.stats);
    assert r == Net(net.nodes[c := r.nodes[c]], r.stats);
  }

  /** With statistics on, `send_packet` records the sent packet on the sender's statistic only. */
  lemma SendPacketStats(net: Net, c: Coord, dest: Coord, data: string, id: nat)
    requires NetOk(net, true) && c in net.nodes
    ensures var r := SendPacket(net, true, c, dest, data, id);
            && NodeStatsOk(r.nodes[c], r.stats)
            && forall c2 :: c2 in net.nodes && c2 != c ==> NodeStatsOk(net.nodes[c2], r.stats)
  {
    var n := net.nodes[c];
    var r := SendPacket(net, true, c, dest, data, id);
    var s1 := Note(net.stats, true, StatOf(c, SentStat), 1);
    NoteOthers(net.nodes, net.stats, true, c, SentStat, 1);
    NoteOthers(net.nodes, s1, true, c, QueueStat, |r.nodes[c].inputQueue|);
    NoteCounted(net.stats, SentStat, n, r.nodes[c]);
    NoteUncounted(s1, true, QueueStat, |r.nodes[c].inputQueue|, r.nodes[c]);
  }

  /**
   * Replacing the node at c by one with the same position and wiring, with
   * statistics that still match every node, keeps the invariant.
   */
  lemma ReplaceOk(net: Net, on: bool, c: Coord, n1: MeshNode, stats1: map<string, Stat>)
    requires NetOk(net, on) && c in net.nodes
    requires n1.pos == c && n1.neighbors == net.nodes[c].neighbors
    requires on ==> NodeStatsOk(n1, stats1)
    requires on ==> forall c2 :: c2 in net.nodes && c2 != c ==> NodeStatsOk(net.nodes[c2], stats1)
    ensures NetOk(Net(net.nodes[c := n1], stats1), on)
  {
    var r := Net(net.nodes[c := n1], stats1);
    ReplaceWellFormed(net.nodes, c, n1);
    if on {
      forall c2 | c2 in r.nodes
        ensures NodeStatsOk(r.nodes[c2], r.stats)
      {
        if c2 != c {
          assert r.nodes[c2] == net.nodes[c2];
        }
      }
    }
  }

  // ---------------------------------------------------------------------
  // The routing phase
  // ---------------------------------------------------------------------

  /** The packets of q that the router at pos sends in direction d, in queue order. */
  function Bound(pos: Coord, q: seq<SPacket>, d: Direction): seq<SPacket>
    decreases |q|
  {
    if |q| == 0 then []
    else (if XYRoute(pos, q[0].destination) == d then [q[0]] else []) + Bound(pos, q[1..], d)
  }

  function HopSum(q: seq<SPacket>): int
    decreases |q|
  {
    if |q| == 0 then 0 else q[0].hopCount + HopSum(q[1..])
  }

  /** What one routing decision does to the routing node and to the rest of the table. */
  lemma RoutePacketEffect(net: Net, on: bool, c: Coord, p: SPacket)
    requires c in net.nodes
    ensures var n, r, d := net.nodes[c], RoutePacket(net, on, c, p).nodes[c], XYRoute(net.nodes[c].pos, p.destination);
            && r == n.(outputQueues := r.outputQueues, packetsReceived := r.packetsReceived)
            && r.packetsReceived == n.packetsReceived + (if d == Local then 1 else 0)
            && (forall e :: e != Local ==> r.outputQueues.Get(e) == n.outputQueues.Get(e) + (if d == e then [p] else []))
            && r.outputQueues.Get(Local) == n.outputQueues.Get(Local)
    ensures forall c2 :: c2 in net.nodes && c2 != c ==> RoutePacket(net, on, c, p).nodes[c2] == net.nodes[c2]
  {
  }

  /**
   * The routing phase of `process_packets` empties the input queue in FIFO
   * order: every packet routed LOCAL is counted as received, every other one
   * is appended, in queue order, to the output queue of its direction; no
   * other counter, no other queue and no other node changes.
   */
  lemma RouteAllEffect(net: Net, on: bool, c: Coord)
    requires c in net.nodes
    ensures var n, r := net.nodes[c], RouteAll(net, on, c).nodes[c];
            && r == n.(inputQueue := [], outputQueues := r.outputQueues, packetsReceived := r.packetsReceived)
            && r.packetsReceived == n.packetsReceived + |Bound(n.pos, n.inputQueue, Local)|
            && (forall d :: d != Local ==> r.outputQueues.Get(d) == n.outputQueues.Get(d) + Bound(n.pos, n.inputQueue, d))
            && r.outputQueues.Get(Local) == n.outputQueues.Get(Local)
    ensures forall c2 :: c2 in net.nodes && c2 != c ==> RouteAll(net, on, c).nodes[c2] == net.nodes[c2]
  {
    RouteAllShape(net, on, c);
    forall d | d != Local
      ensures RouteAll(net, on, c).nodes[c].outputQueues.Get(d) == net.nodes[c].outputQueues.Get(d) + Bound(net.nodes[c].pos, net.nodes[c].inputQueue, d)
    {
      RouteAllQueue(net, on, c, d);
    }
  }

  /** The routing phase empties the input queue, counts the LOCAL packets and changes nothing else but the output queues. */
  lemma {:induction false} RouteAllShape(net: Net, on: bool, c: Coord)
    requires c in net.nodes
    ensures var n, r := net.nodes[c], RouteAll(net, on, c).nodes[c];
            && r == n.(inputQueue := [], outputQueues := r.outputQueues, packetsReceived := r.packetsReceived)
            && r.packetsReceived == n.packetsReceived + |Bound(n.pos, n.inputQueue, Local)|
            && r.outputQueues.Get(Local) == n.outputQueues.Get(Local)
    ensures forall c2 :: c2 in net.nodes && c2 != c ==> RouteAll(net, on, c).nodes[c2] == net.nodes[c2]
    decreases |net.nodes[c].inputQueue|
  {
    var n := net.nodes[c];
    var q := n.inputQueue;
    if |q| > 0 {
      var net1 := RoutePacket(PopInput(net, c), on, c, q[0]);
      RoutePacketEffect(PopInput(net, c), on, c, q[0]);
      RouteAllShape(net1, on, c);
      assert net1.nodes[c].inputQueue == q[1..] && net1.nodes[c].pos == n.pos;
      assert Bound(n.pos, q, Local) == (if XYRoute(n.pos, q[0].destination) == Local then [q[0]] else []) + Bound(n.pos, q[1..], Local);
    }
  }

  /** The routing phase appends to the queue of direction d exactly the packets bound for d, in queue order. */
  lemma {:induction false} RouteAllQueue(net: Net, on: bool, c: Coord, d: Direction)
    requires c in net.nodes && d != Local
    ensures var n, r := net.nodes[c], RouteAll(net, on, c).nodes[c];
            r.outputQueues.Get(d) == n.outputQueues.Get(d) + Bound(n.pos, n.inputQueue, d)
    decreases |net.nodes[c].inputQueue|
  {
    var n := net.nodes[c];
    var q := n.inputQueue;
    if |q| > 0 {
      var net0 := PopInput(net, c);
      var net1 := RoutePacket(net0, on, c, q[0]);
      var e := if XYRoute(n.pos, q[0].destination) == d then [q[0]] else [];
      var o1 := net1.nodes[c].outputQueues.Get(d);
      assert o1 == n.outputQueues.Get(d) + e by {
        RoutePacketQueue(net0, on, c, q[0], d);
      }
      assert RouteAll(net, on, c).nodes[c].outputQueues.Get(d) == o1 + Bound(n.pos, q[1..], d) by {
        RouteAllQueue(net1, on, c, d);
        assert net1.nodes[c].inputQueue == q[1..] && net1.nodes[c].pos == n.pos;
        assert RouteAll(net, on, c) == RouteAll(net1, on, c);
      }
      assert Bound(n.pos, q, d) == e + Bound(n.pos, q[1..], d);
      assert o1 + Bound(n.pos, q[1..], d) == n.outputQueues.Get(d) + Bound(n.pos, q, d);
    }
  }

  /** The routing phase adds to the output queues every input packet not delivered locally. */
  lemma RouteAllQueues(net: Net, on: bool, c: Coord)
    requires c in net.nodes
    ensures var n, r := net.nodes[c], RouteAll(net, on, c).nodes[c];
            QueuedOut(r) == QueuedOut(n) + |n.inputQueue| - |Bound(n.pos, n.inputQueue, Local)|
  {
    RouteAllShape(net, on, c);
    RouteAllQueue(net, on, c, North);
    RouteAllQueue(net, on, c, South);
    RouteAllQueue(net, on, c, East);
    RouteAllQueue(net, on, c, West);
    BoundSizes(net.nodes[c].pos, net.nodes[c].inputQueue);
  }

  /** One routing decision appends the packet to the queue of direction d exactly when it is bound for d. */
  lemma RoutePacketQueue(net: Net, on: bool, c: Coord, p: SPacket, d: Direction)
    requires c in net.nodes && d != Local
    ensures var n, r := net.nodes[c], RoutePacket(net, on, c, p).nodes[c];
            && r.outputQueues.Get(d) == n.outputQueues.Get(d) + (if XYRoute(n.pos, p.destination) == d then [p] else [])
            && r.pos == n.pos
  {
  }

  /** With statistics on, one routing decision keeps the node's statistics matching and adds a delivered packet's hops. */
  lemma RoutePacketHops(net: Net, c: Coord, p: SPacket)
    requires c in net.nodes && net.nodes[c].pos == c && NodeStatsOk(net.nodes[c], net.stats)
    ensures var r := RoutePacket(net, true, c, p);
            && NodeStatsOk(r.nodes[c], r.stats) && StatOf(c, HopStat) in r.stats
            && r.stats[StatOf(c, HopStat)].value
               == net.stats[StatOf(c, HopStat)].value + (if XYRoute(c, p.destination) == Local then p.hopCount else 0)
  {
    var r := RoutePacket(net, true, c, p);
    RoutePacketEffect(net, true, c, p);
    if XYRoute(c, p.destination) == Local {
      var s1 := Note(net.stats, true, StatOf(c, ReceivedStat), 1);
      NoteCounted(net.stats, ReceivedStat, net.nodes[c], r.nodes[c]);
      NoteUncounted(s1, true, HopStat, p.hopCount, r.nodes[c]);
      MetricsDistinct();
      StatOfDistinct(c, HopStat, c, ReceivedStat);
    }
  }

  /** With statistics on, the routing phase adds the hop counts of the delivered packets to the node's hop statistic. */
  lemma {:induction false} RouteAllHops(net: Net, c: Coord)
    requires c in net.nodes && net.nodes[c].pos == c && NodeStatsOk(net.nodes[c], net.stats)
    ensures var q := net.nodes[c].inputQueue; var r := RouteAll(net, true, c);
            && NodeStatsOk(r.nodes[c], r.stats) && StatOf(c, HopStat) in r.stats
            && r.stats[StatOf(c, HopStat)].value == net.stats[StatOf(c, HopStat)].value + HopSum(Bound(c, q, Local))
    decreases |net.nodes[c].inputQueue|
  {
    var q := net.nodes[c].inputQueue;
    if |q| > 0 {
      var net0 := PopInput(net, c);
      var net1 := RoutePacket(net0, true, c, q[0]);
      RoutePacketHops(net0, c, q[0]);
      RoutePacketEffect(net0, true, c, q[0]);
      RouteAllHops(net1, c);
      assert RouteAll(net, true, c) == RouteAll(net1, true, c);
      assert net1.nodes[c].inputQueue == q[1..];
      assert net0.stats == net.stats;
      var h := StatOf(c, HopStat);
      var b := Bound(c, q, Local);
      if XYRoute(c, q[0].destination) == Local {
        assert b[0] == q[0] && b[1..] == Bound(c, q[1..], Local);
        assert HopSum(b) == q[0].hopCount + HopSum(Bound(c, q[1..], Local));
      } else {
        assert b == Bound(c, q[1..], Local);
      }
    }
  }

  /** One routing decision keeps the invariant. */
  lemma RoutePacketOk(net: Net, on: bool, c: Coord, p: SPacket)
    requires NetOk(net, on) && c in net.nodes
    ensures NetOk(RoutePacket(net, on, c, p), on)
  {
    var r := RoutePacket(net, on, c, p);
    RoutePacketEffect(net, on, c, p);
    assert WellFormed(r.nodes) by {
      ReplaceWellFormed(net.nodes, c, r.nodes[c]);
      assert r.nodes == net.nodes[c := r.nodes[c]];
    }
    if on {
      RoutePacketHops(net, c, p);
      if XYRoute(c, p.destination) == Local {
        NoteOthers(net.nodes, net.stats, on, c, ReceivedStat, 1);
        NoteOthers(net.nodes, Note(net.stats, on, StatOf(c, ReceivedStat), 1), on, c, HopStat, p.hopCount);
      }
      forall c2 | c2 in r.nodes
        ensures NodeStatsOk(r.nodes[c2], r.stats)
      {
        if c2 != c {
          assert r.nodes[c2] == net.nodes[c2];
        }
      }
    }
  }

  /** Taking the front packet off an input queue keeps the invariant. */
  lemma PopInputOk(net: Net, on: bool, c: Coord)
    requires NetOk(net, on) && c in net.nodes && |net.nodes[c].inputQueue| > 0
    ensures NetOk(PopInput(net, c), on)
  {
    var r := PopInput(net, c);
    ReplaceWellFormed(net.nodes, c, r.nodes[c]);
    if on {
      forall c2 | c2 in r.nodes
        ensures NodeStatsOk(r.nodes[c2], r.stats)
      {
        if c2 != c {
          assert r.nodes[c2] == net.nodes[c2];
        }
      }
    }
  }

  /** The routing phase keeps the invariant. */
  lemma RouteAllOk(net: Net, on: bool, c: Coord)
    requires NetOk(net, on) && c in net.nodes
    ensures NetOk(RouteAll(net, on, c), on)
  {
    RouteAllWellFormed(net, on, c);
    if on {
      RouteAllStats(net, c);
    }
  }

  /** The routing phase keeps the table well formed. */
  lemma RouteAllWellFormed(net: Net, on: bool, c: Coord)
    requires WellFormed(net.nodes) && c in net.nodes
    ensures WellFormed(RouteAll(net, on, c).nodes)
  {
    var r := RouteAll(net, on, c);
    RouteAllShape(net, on, c);
    ReplaceWellFormed(net.nodes, c, r.nodes[c]);
    assert r.nodes == net.nodes[c := r.nodes[c]];
  }

  /** With statistics on, the routing phase keeps the statistics equal to the counters. */
  lemma RouteAllStats(net: Net, c: Coord)
    requires NetOk(net, true) && c in net.nodes
    ensures StatsMatch(RouteAll(net, true, c))
  {
    var r := RouteAll(net, true, c);
    RouteAllShape(net, true, c);
    RouteAllHops(net, c);
    RouteAllStatsElsewhere(net, c);
  }

  /** The routing phase at c records statistics of c only. */
  lemma {:induction false} RouteAllStatsElsewhere(net: Net, c: Coord)
    requires WellFormed(net.nodes) && c in net.nodes
    requires forall c2 :: c2 in net.nodes && c2 != c ==> NodeStatsOk(net.nodes[c2], net.stats)
    ensures forall c2 :: c2 in net.nodes && c2 != c ==> NodeStatsOk(net.nodes[c2], RouteAll(net, true, c).stats)
    decreases |net.nodes[c].inputQueue|
  {
    var q := net.nodes[c].inputQueue;
    if |q| > 0 {
      var net0 := PopInput(net, c);
      var net1 := RoutePacket(net0, true, c, q[0]);
      ReplaceWellFormed(net.nodes, c, net0.nodes[c]);
      RoutePacketEffect(net0, true, c, q[0]);
      if XYRoute(c, q[0].destination) == Local {
        NoteOthers(net0.nodes, net0.stats, true, c, ReceivedStat, 1);
        NoteOthers(net0.nodes, Note(net0.stats, true, StatOf(c, ReceivedStat), 1), true, c, HopStat, q[0].hopCount);
      }
      ReplaceWellFormed(net0.nodes, c, net1.nodes[c]);
      assert net1.nodes == net0.nodes[c := net1.nodes[c]];
      RouteAllStatsElsewhere(net1, c);
    }
  }

  // ---------------------------------------------------------------------
  // The transfer phase
  // ---------------------------------------------------------------------

  /** All packets waiting in a node's output queues. */
  function QueuedOut(n: MeshNode): nat
  {
    |n.outputQueues.north| + |n.outputQueues.south| + |n.outputQueues.east| + |n.outputQueues.west| + |n.outputQueues.local|
  }

  /** Whether the transfer in direction d moves a packet: not LOCAL, a non-empty queue, an existing neighbour. */
  predicate Moves(n: MeshNode, d: Direction)
  {
    d != Local && |n.outputQueues.Get(d)| > 0 && n.neighbors.Get(d).Some?
  }

  /**
   * One direction of the transfer phase: when it moves a packet, the oldest
   * packet of that queue is appended to the neighbour's input queue with one
   * more hop and the node counts exactly one forward; otherwise nothing
   * changes.  Either way the other queues and counters of the node stay.
   */
  lemma TransferDirEffect(net: Net, on: bool, c: Coord, d: Direction)
    requires WellFormed(net.nodes) && c in net.nodes
    ensures var n, r := net.nodes[c], TransferDir(net, on, c, d);
            if Moves(n, d) then
              var m, q := n.neighbors.Get(d).value, n.outputQueues.Get(d);
              && m in net.nodes && m != c
              && r.nodes[c] == n.(outputQueues := n.outputQueues.Set(d, q[1..]), packetsForwarded := n.packetsForwarded + 1)
              && r.nodes[m] == net.nodes[m].(inputQueue := net.nodes[m].inputQueue + [q[0].(hopCount := q[0].hopCount + 1)])
              && (forall c2 :: c2 in net.nodes && c2 != c && c2 != m ==> r.nodes[c2] == net.nodes[c2])
            else r == net
  {
    if Moves(net.nodes[c], d) {
      TransferDirMoves(net, on, c, d);
    }
  }

  /** A transfer that moves a packet changes exactly the node and the neighbour it moves the packet to. */
  lemma TransferDirMoves(net: Net, on: bool, c: Coord, d: Direction)
    requires WellFormed(net.nodes) && c in net.nodes && Moves(net.nodes[c], d)
    ensures var n, r := net.nodes[c], TransferDir(net, on, c, d);
            var m, q := n.neighbors.Get(d).value, n.outputQueues.Get(d);
            && m in net.nodes && m != c
            && r.nodes[c] == n.(outputQueues := n.outputQueues.Set(d, q[1..]), packetsForwarded := n.packetsForwarded + 1)
            && r.nodes[m] == net.nodes[m].(inputQueue := net.nodes[m].inputQueue + [q[0].(hopCount := q[0].hopCount + 1)])
            && r.stats == Note(net.stats, on, StatOf(c, ForwardedStat), 1)
            && (forall c2 :: c2 in net.nodes && c2 != c && c2 != m ==> r.nodes[c2] == net.nodes[c2])
  {
    var m := net.nodes[c].neighbors.Get(d).value;
    assert InGrid(Size, Size, m) && m != c by {
      SimpleLinksAreMesh(c, d);
      NeighborPresence(Mesh, Size, Size, c, d);
    }
  }

  /** A transfer keeps forwards plus queued output packets of the node constant: a forward is counted only for a packet that leaves. */
  lemma TransferDirBalance(net: Net, on: bool, c: Coord, d: Direction)
    requires WellFormed(net.nodes) && c in net.nodes
    ensures var n, r := net.nodes[c], TransferDir(net, on, c, d).nodes[c];
            && r.packetsForwarded + QueuedOut(r) == n.packetsForwarded + QueuedOut(n)
            && r.packetsForwarded == n.packetsForwarded + (if Moves(n, d) then 1 else 0)
            && r.packetsSent == n.packetsSent && r.packetsReceived == n.packetsReceived
            && r.pos == n.pos && r.neighbors == n.neighbors
  {
    TransferDirEffect(net, on, c, d);
  }

  /** One transfer keeps the invariant. */
  lemma TransferDirOk(net: Net, on: bool, c: Coord, d: Direction)
    requires NetOk(net, on) && c in net.nodes
    ensures NetOk(TransferDir(net, on, c, d), on)
  {
    if Moves(net.nodes[c], d) {
      TransferDirWellFormed(net, on, c, d);
      if on {
        TransferDirStats(net, c, d);
      }
    } else {
      TransferDirEffect(net, on, c, d);
    }
  }

  /** A transfer that moves a packet keeps the table well formed. */
  lemma TransferDirWellFormed(net: Net, on: bool, c: Coord, d: Direction)
    requires WellFormed(net.nodes) && c in net.nodes && Moves(net.nodes[c], d)
    ensures WellFormed(TransferDir(net, on, c, d).nodes)
  {
    var r := TransferDir(net, on, c, d);
    var m := net.nodes[c].neighbors.Get(d).value;
    TransferDirMoves(net, on, c, d);
    var nodes1 := net.nodes[c := r.nodes[c]];
    ReplaceWellFormed(net.nodes, c, r.nodes[c]);
    ReplaceWellFormed(nodes1, m, r.nodes[m]);
    assert r.nodes == nodes1[m := r.nodes[m]];
  }

  /** A transfer that moves a packet records exactly the forward it counts. */
  lemma TransferDirStats(net: Net, c: Coord, d: Direction)
    requires NetOk(net, true) && c in net.nodes && Moves(net.nodes[c], d)
    ensures StatsMatch(TransferDir(net, true, c, d))
  {
    var n := net.nodes[c];
    var r := TransferDir(net, true, c, d);
    var m := n.neighbors.Get(d).value;
    TransferDirMoves(net, true, c, d);
    NoteOthers(net.nodes, net.stats, true, c, ForwardedStat, 1);
    NoteCounted(net.stats, ForwardedStat, n, r.nodes[c]);
    assert NodeStatsOk(r.nodes[m], r.stats) by {
      NoteElsewhere(net.stats, true, c, ForwardedStat, 1, net.nodes[m]);
    }
    forall c2 | c2 in r.nodes
      ensures NodeStatsOk(r.nodes[c2], r.stats)
    {
      if c2 != c && c2 != m {
        assert r.nodes[c2] == net.nodes[c2];
      }
    }
  }

  /** The first k directions keep the invariant, move at most one packet each and count exactly the packets that leave. */
  lemma TransferUpToOk(net: Net, on: bool, c: Coord, k: nat)
    requires NetOk(net, on) && c in net.nodes && k <= |AllDirections|
    ensures var n, r := net.nodes[c], TransferUpTo(net, on, c, k);
            && NetOk(r, on)
            && r.nodes[c].packetsForwarded + QueuedOut(r.nodes[c]) == n.packetsForwarded + QueuedOut(n)
            && r.nodes[c].packetsForwarded <= n.packetsForwarded + (if k == 5 then 4 else k)
            && r.nodes[c].packetsSent == n.packetsSent && r.nodes[c].packetsReceived == n.packetsReceived
  {
    TransferUpToInv(net, on, c, k);
    TransferUpToCounts(net, on, c, k);
  }

  lemma {:induction false} TransferUpToInv(net: Net, on: bool, c: Coord, k: nat)
    requires NetOk(net, on) && c in net.nodes && k <= |AllDirections|
    ensures NetOk(TransferUpTo(net, on, c, k), on)
  {
    if k > 0 {
      TransferUpToInv(net, on, c, k - 1);
      TransferDirOk(TransferUpTo(net, on, c, k - 1), on, c, AllDirections[k - 1]);
    }
  }

  lemma {:induction false} TransferUpToWellFormed(net: Net, on: bool, c: Coord, k: nat)
    requires WellFormed(net.nodes) && c in net.nodes && k <= |AllDirections|
    ensures WellFormed(TransferUpTo(net, on, c, k).nodes)
  {
    if k > 0 {
      var prev, d := TransferUpTo(net, on, c, k - 1), AllDirections[k - 1];
      TransferUpToWellFormed(net, on, c, k - 1);
      if Moves(prev.nodes[c], d) {
        TransferDirWellFormed(prev, on, c, d);
      } else {
        TransferDirEffect(prev, on, c, d);
      }
    }
  }

  lemma {:induction false} TransferUpToCounts(net: Net, on: bool, c: Coord, k: nat)
    requires WellFormed(net.nodes) && c in net.nodes && k <= |AllDirections|
    ensures var n, r := net.nodes[c], TransferUpTo(net, on, c, k).nodes[c];
            && r.packetsForwarded + QueuedOut(r) == n.packetsForwarded + QueuedOut(n)
            && r.packetsForwarded <= n.packetsForwarded + (if k == 5 then 4 else k)
            && r.packetsSent == n.packetsSent && r.packetsReceived == n.packetsReceived
  {
    if k > 0 {
      var prev, d := TransferUpTo(net, on, c, k - 1), AllDirections[k - 1];
      TransferUpToCounts(net, on, c, k - 1);
      TransferUpToWellFormed(net, on, c, k - 1);
      TransferDirBalance(prev, on, c, d);
      assert k == 5 ==> !Moves(prev.nodes[c], d);
    }
  }

  /**
   * `process_packets` keeps the invariant; a node forwards at most four
   * packets per call (one per direction other than LOCAL), and every forward
   * it counts is a packet that left its output queues.
   */
  lemma ProcessNodeOk(net: Net, on: bool, c: Coord)
    requires NetOk(net, on) && c in net.nodes
    ensures var n, r := net.nodes[c], ProcessNode(net, on, c).nodes[c];
            && NetOk(ProcessNode(net, on, c), on)
            && r.packetsForwarded <= n.packetsForwarded + 4
            && r.packetsForwarded + QueuedOut(r) == n.packetsForwarded + QueuedOut(n) + |n.inputQueue| - |Bound(n.pos, n.inputQueue, Local)|
            && r.packetsReceived == n.packetsReceived + |Bound(n.pos, n.inputQueue, Local)|
            && r.packetsSent == n.packetsSent
  {
    RouteAllOk(net, on, c);
    TransferUpToInv(RouteAll(net, on, c), on, c, |AllDirections|);
    ProcessNodeCounts(net, on, c);
  }

  lemma ProcessNodeCounts(net: Net, on: bool, c: Coord)
    requires WellFormed(net.nodes) && c in net.nodes
    ensures var n, r := net.nodes[c], ProcessNode(net, on, c).nodes[c];
            && r.packetsForwarded <= n.packetsForwarded + 4
            && r.packetsForwarded + QueuedOut(r) == n.packetsForwarded + QueuedOut(n) + |n.inputQueue| - |Bound(n.pos, n.inputQueue, Local)|
            && r.packetsReceived == n.packetsReceived + |Bound(n.pos, n.inputQueue, Local)|
            && r.packetsSent == n.packetsSent
  {
    var mid := RouteAll(net, on, c);
    RouteAllShape(net, on, c);
    RouteAllWellFormed(net, on, c);
    TransferUpToCounts(mid, on, c, |AllDirections|);
    BoundSizes(net.nodes[c].pos, net.nodes[c].inputQueue);
    RouteAllQueues(net, on, c);
  }

  /** Every packet of a queue goes to exactly one direction. */
  lemma {:induction false} BoundSizes(pos: Coord, q: seq<SPacket>)
    ensures |Bound(pos, q, North)| + |Bound(pos, q, South)| + |Bound(pos, q, East)| + |Bound(pos, q, West)|
            + |Bound(pos, q, Local)| == |q|
    decreases |q|
  {
    if |q| > 0 {
      BoundSizes(pos, q[1..]);
    }
  }

  lemma {:induction false} ProcessOrderOk(net: Net, on: bool, order: seq<Coord>, k: nat)
    requires NetOk(net, on) && k <= |order| && forall i :: 0 <= i < |order| ==> order[i] in net.nodes
    ensures NetOk(ProcessOrder(net, on, order, k), on)
  {
    if k > 0 {
      var prev := ProcessOrder(net, on, order, k - 1);
      assert NetOk(prev, on) by { ProcessOrderOk(net, on, order, k - 1); }
      assert order[k - 1] in prev.nodes by { assert prev.nodes.Keys == net.nodes.Keys; }
      ProcessNodeOk(prev, on, order[k - 1]);
    }
  }

  /** Any number of simulation steps keeps the table well formed and the statistics equal to the counters. */
  lemma {:induction false} StepsOk(net: Net, on: bool, order: seq<Coord>, steps: nat)
    requires NetOk(net, on) && forall i :: 0 <= i < |order| ==> order[i] in net.nodes
    ensures NetOk(Steps(net, on, order, steps), on)
  {
    if steps > 0 {
      var prev := Steps(net, on, order, steps - 1);
      assert NetOk(prev, on) by { StepsOk(net, on, order, steps - 1); }
      KeysKeepOrder(net.nodes, prev.nodes, order);
      ProcessOrderOk(prev, on, order, |order|);
    }
  }

  /** Two tables with the same positions hold the same nodes of a processing order. */
  lemma KeysKeepOrder(a: map<Coord, MeshNode>, b: map<Coord, MeshNode>, order: seq<Coord>)
    requires a.Keys == b.Keys && forall i :: 0 <= i < |order| ==> order[i] in a
    ensures forall i :: 0 <= i < |order| ==> order[i] in b
  {
    forall i | 0 <= i < |order|
      ensures order[i] in b
    {
      assert order[i] in a.Keys;
    }
  }
}
