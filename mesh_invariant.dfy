/**
 * The invariant of the simulated mesh and its preservation by sending a
 * message and by every piece of a simulation step.  `delivered` is the
 * (ghost) multiset of ids of packets delivered so far and `counter` the
 * mesh's packet counter, which is also the id of the latest packet.
 */
module MeshInvariant {
  import opened Wrappers
  import opened Grid
  import opened Routing
  import opened CoreTypes
  import opened MirandaNode
  import opened MeshState

  // ---------------------------------------------------------------------
  // Sums over the node table
  // ---------------------------------------------------------------------

  function Sent(n: Node): int { n.packetsSent }

  function Received(n: Node): int { n.packetsReceived }

  function SumOver(ns: seq<Node>, f: Node -> int): int
  {
    if ns == [] then 0 else SumOver(ns[..|ns| - 1], f) + f(ns[|ns| - 1])
  }

  function UnionOver(ns: seq<Node>, f: Node -> multiset<nat>): multiset<nat>
  {
    if ns == [] then multiset{} else UnionOver(ns[..|ns| - 1], f) + f(ns[|ns| - 1])
  }

  lemma {:induction false} SumOverUpdate(ns: seq<Node>, i: nat, n: Node, f: Node -> int)
    requires i < |ns|
    ensures SumOver(ns[i := n], f) == SumOver(ns, f) - f(ns[i]) + f(n)
    decreases |ns|
  {
    var last := |ns| - 1;
    if i == last {
      assert ns[i := n][..last] == ns[..last];
    } else {
      assert ns[i := n][..last] == ns[..last][i := n];
      SumOverUpdate(ns[..last], i, n, f);
    }
  }

  lemma {:induction false} UnionOverUpdate(ns: seq<Node>, i: nat, n: Node, f: Node -> multiset<nat>)
    requires i < |ns|
    ensures UnionOver(ns[i := n], f) + f(ns[i]) == UnionOver(ns, f) + f(n)
    decreases |ns|
  {
    var last := |ns| - 1;
    if i == last {
      assert ns[i := n][..last] == ns[..last];
    } else {
      assert ns[i := n][..last] == ns[..last][i := n];
      assert ns[i := n][last] == ns[last];
      UnionOverUpdate(ns[..last], i, n, f);
      var a, b := UnionOver(ns[..last][i := n], f), UnionOver(ns[..last], f);
      assert UnionOver(ns[i := n], f) == a + f(ns[last]);
      assert UnionOver(ns, f) == b + f(ns[last]);
      assert a + f(ns[i]) == b + f(n);
      assert a + f(ns[last]) + f(ns[i]) == (a + f(ns[i])) + f(ns[last]);
    }
  }

  lemma {:induction false} SumOverPointwise(a: seq<Node>, b: seq<Node>, f: Node -> int)
    requires |a| == |b| && forall j :: 0 <= j < |a| ==> f(a[j]) == f(b[j])
    ensures SumOver(a, f) == SumOver(b, f)
    decreases |a|
  {
    if a != [] {
      SumOverPointwise(a[..|a| - 1], b[..|b| - 1], f);
    }
  }

  lemma {:induction false} SumOverZero(ns: seq<Node>, f: Node -> int)
    requires forall j :: 0 <= j < |ns| ==> f(ns[j]) == 0
    ensures SumOver(ns, f) == 0
    decreases |ns|
  {
    if ns != [] {
      SumOverZero(ns[..|ns| - 1], f);
    }
  }

  lemma {:induction false} UnionOverEmpty(ns: seq<Node>, f: Node -> multiset<nat>)
    requires forall j :: 0 <= j < |ns| ==> f(ns[j]) == multiset{}
    ensures UnionOver(ns, f) == multiset{}
    decreases |ns|
  {
    if ns != [] {
      UnionOverEmpty(ns[..|ns| - 1], f);
    }
  }

  /** The ids 1..c, each once: the ids the packet counter has handed out. */
  function Range(c: nat): multiset<nat>
  {
    if c == 0 then multiset{} else Range(c - 1) + multiset{c}
  }

  lemma {:induction false} RangeContents(c: nat, id: nat)
    ensures |Range(c)| == c
    ensures Range(c)[id] == if 1 <= id <= c then 1 else 0
  {
    if c > 0 {
      RangeContents(c - 1, id);
    }
  }

  // ---------------------------------------------------------------------
  // The invariant
  // ---------------------------------------------------------------------

  /** Node i sits at its row-major position, shares the mesh configuration and is wired to its grid neighbours. */
  predicate WiredNode(n: Node, i: nat, cfg: TopoConfig, t: TopologyType, X: nat, Y: nat)
  {
    X > 0 && n.nodeId == i && n.pos == CoordOf(X, i) && InGrid(X, Y, n.pos) && n.cfg == cfg &&
    n.workload == HybridWorkload(PositionClass(X, Y, n.pos)) &&
    n.neighbors == Links(t, X, Y, n.pos)
  }

  predicate Wired(ns: seq<Node>, cfg: TopoConfig, t: TopologyType, X: nat, Y: nat)
  {
    |ns| == X * Y && Consistent(cfg, t, X, Y) &&
    forall i :: 0 <= i < |ns| ==> WiredNode(ns[i], i, cfg, t, X, Y)
  }

  predicate AllNodesOk(ns: seq<Node>, t: TopologyType, X: nat, Y: nat)
  {
    forall i :: 0 <= i < |ns| ==> NodeOk(t, X, Y, ns[i]) && TalliesAgree(ns[i])
  }

  /**
   * The mesh invariant: correct wiring, every node's queue invariant and
   * tallies, one sent packet per counter value, one received packet per
   * delivery, and every id handed out either queued exactly once somewhere
   * or delivered exactly once.
   */
  predicate Inv(ns: seq<Node>, cfg: TopoConfig, t: TopologyType, X: nat, Y: nat, counter: nat, delivered: multiset<nat>)
  {
    Wired(ns, cfg, t, X, Y) && AllNodesOk(ns, t, X, Y) &&
    SumOver(ns, Sent) == counter && SumOver(ns, Received) == |delivered| &&
    UnionOver(ns, QueuedIds) + delivered == Range(counter)
  }

  lemma WiredLinksInRange(ns: seq<Node>, cfg: TopoConfig, t: TopologyType, X: nat, Y: nat)
    requires Wired(ns, cfg, t, X, Y)
    ensures LinksInRange(ns)
  {
    forall i, d | 0 <= i < |ns| && ns[i].neighbors.Get(d).Some?
      ensures ns[i].neighbors.Get(d).value < |ns|
    {
      assert WiredNode(ns[i], i, cfg, t, X, Y);
      LinksInGrid(t, X, Y, ns[i].pos, d);
    }
  }

  lemma SameSetupsWired(a: seq<Node>, b: seq<Node>, cfg: TopoConfig, t: TopologyType, X: nat, Y: nat)
    requires Wired(a, cfg, t, X, Y) && SameSetups(a, b)
    ensures Wired(b, cfg, t, X, Y)
  {
    forall i | 0 <= i < |b|
      ensures WiredNode(b[i], i, cfg, t, X, Y)
    {
      assert WiredNode(a[i], i, cfg, t, X, Y) && SameSetup(a[i], b[i]);
    }
  }

  // ---------------------------------------------------------------------
  // What the invariant guarantees
  // ---------------------------------------------------------------------

  /**
   * Conservation: every packet sent is either received at its destination
   * or still queued somewhere, and the sent counters add up to the packet
   * counter.
   */
  lemma InvConservation(ns: seq<Node>, cfg: TopoConfig, t: TopologyType, X: nat, Y: nat, counter: nat, delivered: multiset<nat>)
    requires Inv(ns, cfg, t, X, Y, counter, delivered)
    ensures SumOver(ns, Sent) == counter
    ensures SumOver(ns, Received) + |UnionOver(ns, QueuedIds)| == counter
  {
    RangeContents(counter, 0);
  }

  /**
   * No duplication: each id the counter handed out is either queued exactly
   * once or delivered exactly once, and no other id is anywhere.
   */
  lemma InvUniqueIds(ns: seq<Node>, cfg: TopoConfig, t: TopologyType, X: nat, Y: nat, counter: nat, delivered: multiset<nat>, id: nat)
    requires Inv(ns, cfg, t, X, Y, counter, delivered)
    ensures UnionOver(ns, QueuedIds)[id] + delivered[id] == if 1 <= id <= counter then 1 else 0
    ensures id in UnionOver(ns, QueuedIds) ==> id !in delivered && UnionOver(ns, QueuedIds)[id] == 1
  {
    RangeContents(counter, id);
  }

  /**
   * No stranding: a packet on an output queue always faces a wired
   * neighbour, so the transfer phase never leaves a queue front behind for
   * want of one, and the LOCAL output queue stays empty.
   */
  lemma InvNoStranding(ns: seq<Node>, cfg: TopoConfig, t: TopologyType, X: nat, Y: nat, counter: nat, delivered: multiset<nat>,
                       i: nat, d: Direction)
    requires Inv(ns, cfg, t, X, Y, counter, delivered) && i < |ns| && |ns[i].outputQueues.Get(d)| > 0
    ensures d != Local && ns[i].neighbors.Get(d).Some?
  {
    var n := ns[i];
    assert NodeOk(t, X, Y, n) && WiredNode(n, i, cfg, t, X, Y);
    var p := n.outputQueues.Get(d)[0];
    assert OutQueueOk(t, X, Y, n, d);
    assert p in n.outputQueues.Get(d);
    RouteProgress(n.cfg, t, X, Y, n.pos, p.destination);
    LinksAreNeighbors(t, X, Y, n.pos, d);
  }

  // ---------------------------------------------------------------------
  // The invariant holds initially and after every operation
  // ---------------------------------------------------------------------

  /** The freshly built table: node i at its position, wired, with empty queues and zero counters. */
  function InitialNodes(cfg: TopoConfig, t: TopologyType, X: nat, Y: nat): (r: seq<Node>)
    ensures |r| == X * Y
  {
    if X == 0 then []
    else
      seq(X * Y, i requires 0 <= i < X * Y =>
        (CoordOfBounds(X, Y, i);
         NewNode(i, CoordOf(X, i), cfg).(neighbors := Links(t, X, Y, CoordOf(X, i)))))
  }

  lemma InitialInv(cfg: TopoConfig, t: TopologyType, X: nat, Y: nat)
    requires Consistent(cfg, t, X, Y)
    ensures Inv(InitialNodes(cfg, t, X, Y), cfg, t, X, Y, 0, multiset{})
  {
    var ns := InitialNodes(cfg, t, X, Y);
    forall i | 0 <= i < |ns|
      ensures WiredNode(ns[i], i, cfg, t, X, Y) && NodeOk(t, X, Y, ns[i]) && TalliesAgree(ns[i])
      ensures Sent(ns[i]) == 0 && Received(ns[i]) == 0 && QueuedIds(ns[i]) == multiset{}
    {
      CoordOfBounds(X, Y, i);
      NewNodeTallies(i, CoordOf(X, i), cfg);
    }
    SumOverZero(ns, Sent);
    SumOverZero(ns, Received);
    UnionOverEmpty(ns, QueuedIds);
  }

  /** The mesh's message send: rejected unless both ids name nodes, otherwise a fresh id and one injected packet. */
  function SendMessage(ns: seq<Node>, counter: nat, src: int, dst: int, message: string, memoryRequest: bool, size: int)
    : (seq<Node>, nat)
  {
    if !(0 <= src < |ns|) || !(0 <= dst < |ns|) then (ns, counter)
    else (ns[src := SendPacket(ns[src], ns[dst].pos, message, counter + 1, memoryRequest, size)], counter + 1)
  }

  /**
   * Sending keeps the invariant; a send between existing nodes hands out
   * the next id and queues it at the source, and any other send changes
   * nothing.
   */
  lemma SendMessageInv(ns: seq<Node>, cfg: TopoConfig, t: TopologyType, X: nat, Y: nat, counter: nat, delivered: multiset<nat>,
                       src: int, dst: int, message: string, memoryRequest: bool, size: int)
    requires Inv(ns, cfg, t, X, Y, counter, delivered)
    ensures var (ns', counter') := SendMessage(ns, counter, src, dst, message, memoryRequest, size);
            && Inv(ns', cfg, t, X, Y, counter', delivered)
            && (counter' == counter + 1 <==> 0 <= src < |ns| && 0 <= dst < |ns|)
            && (counter' == counter ==> ns' == ns)
  {
    if 0 <= src < |ns| && 0 <= dst < |ns| {
      SendKeepsStructure(ns, cfg, t, X, Y, src, dst, message, counter + 1, memoryRequest, size);
      SendPacketIds(ns[src], ns[dst].pos, message, counter + 1, memoryRequest, size);
      SendKeepsCounts(ns, counter, delivered, src, SendPacket(ns[src], ns[dst].pos, message, counter + 1, memoryRequest, size));
    }
  }

  lemma SendKeepsStructure(ns: seq<Node>, cfg: TopoConfig, t: TopologyType, X: nat, Y: nat,
                           src: nat, dst: nat, message: string, id: nat, memoryRequest: bool, size: int)
    requires Wired(ns, cfg, t, X, Y) && AllNodesOk(ns, t, X, Y) && src < |ns| && dst < |ns|
    ensures var n' := SendPacket(ns[src], ns[dst].pos, message, id, memoryRequest, size);
            Wired(ns[src := n'], cfg, t, X, Y) && AllNodesOk(ns[src := n'], t, X, Y)
  {
    var n := ns[src];
    var dest := ns[dst].pos;
    var n' := SendPacket(n, dest, message, id, memoryRequest, size);
    assert WiredNode(ns[dst], dst, cfg, t, X, Y);
    assert NodeOk(t, X, Y, n) && TalliesAgree(n) && WiredNode(n, src, cfg, t, X, Y);
    SendPacketOk(t, X, Y, n, dest, message, id, memoryRequest, size);
    SendPacketTallies(n, dest, message, id, memoryRequest, size);
    ReplaceKeepsWired(ns, src, n', cfg, t, X, Y);
    ReplaceKeepsNodesOk(ns, src, n', t, X, Y);
  }

  /** Replacing the source node by one holding one more packet, with the next id, keeps the counts and the ids. */
  lemma SendKeepsCounts(ns: seq<Node>, counter: nat, delivered: multiset<nat>, src: nat, n': Node)
    requires src < |ns|
    requires QueuedIds(n') == QueuedIds(ns[src]) + multiset{counter + 1}
    requires n'.packetsSent == ns[src].packetsSent + 1 && n'.packetsReceived == ns[src].packetsReceived
    requires SumOver(ns, Sent) == counter && SumOver(ns, Received) == |delivered|
    requires UnionOver(ns, QueuedIds) + delivered == Range(counter)
    ensures SumOver(ns[src := n'], Sent) == counter + 1
    ensures SumOver(ns[src := n'], Received) == |delivered|
    ensures UnionOver(ns[src := n'], QueuedIds) + delivered == Range(counter + 1)
  {
    ReplaceSums(ns, src, n');
    AddFresh(UnionOver(ns[src := n'], QueuedIds), UnionOver(ns, QueuedIds), QueuedIds(ns[src]), delivered, counter + 1, Range(counter));
  }

  /** Replacing one node changes each sum by that node's difference. */
  lemma ReplaceSums(ns: seq<Node>, i: nat, n: Node)
    requires i < |ns|
    ensures SumOver(ns[i := n], Sent) == SumOver(ns, Sent) - ns[i].packetsSent + n.packetsSent
    ensures SumOver(ns[i := n], Received) == SumOver(ns, Received) - ns[i].packetsReceived + n.packetsReceived
    ensures UnionOver(ns[i := n], QueuedIds) + QueuedIds(ns[i]) == UnionOver(ns, QueuedIds) + QueuedIds(n)
  {
    SumOverUpdate(ns, i, n, Sent);
    SumOverUpdate(ns, i, n, Received);
    UnionOverUpdate(ns, i, n, QueuedIds);
  }

  lemma AddFresh(after: multiset<nat>, before: multiset<nat>, old_: multiset<nat>, delivered: multiset<nat>, id: nat, range: multiset<nat>)
    requires after + old_ == before + (old_ + multiset{id})
    requires before + delivered == range
    ensures after + delivered == range + multiset{id}
  {
    forall x
      ensures after[x] == (before + multiset{id})[x]
    {
      assert (after + old_)[x] == (before + (old_ + multiset{id}))[x];
    }
    assert after == before + multiset{id};
  }

  lemma ReplaceKeepsWired(ns: seq<Node>, i: nat, n: Node, cfg: TopoConfig, t: TopologyType, X: nat, Y: nat)
    requires Wired(ns, cfg, t, X, Y) && i < |ns| && WiredNode(n, i, cfg, t, X, Y)
    ensures Wired(ns[i := n], cfg, t, X, Y)
  {
  }

  lemma ReplaceKeepsNodesOk(ns: seq<Node>, i: nat, n: Node, t: TopologyType, X: nat, Y: nat)
    requires AllNodesOk(ns, t, X, Y) && i < |ns| && NodeOk(t, X, Y, n) && TalliesAgree(n)
    ensures AllNodesOk(ns[i := n], t, X, Y)
  {
  }

  // ---------------------------------------------------------------------
  // The transfer phase keeps the invariant
  // ---------------------------------------------------------------------

  /** The moved packet arrives in flight at the neighbour: it is one hop further and one hop closer. */
  lemma TransferredInFlight(ns: seq<Node>, cfg: TopoConfig, t: TopologyType, X: nat, Y: nat, i: nat, d: Direction)
    requires Wired(ns, cfg, t, X, Y) && AllNodesOk(ns, t, X, Y) && i < |ns|
    requires |ns[i].outputQueues.Get(d)| > 0 && ns[i].neighbors.Get(d).Some?
    ensures ns[i].neighbors.Get(d).value < |ns|
    ensures InFlight(t, X, Y, ns[ns[i].neighbors.Get(d).value].pos, Hopped(ns[i].outputQueues.Get(d)[0]))
  {
    var n := ns[i];
    var p := n.outputQueues.Get(d)[0];
    assert NodeOk(t, X, Y, n) && WiredNode(n, i, cfg, t, X, Y);
    assert OutQueueOk(t, X, Y, n, d);
    assert p in n.outputQueues.Get(d);
    RouteProgress(cfg, t, X, Y, n.pos, p.destination);
    LinksInGrid(t, X, Y, n.pos, d);
    var m := n.neighbors.Get(d).value;
    assert WiredNode(ns[m], m, cfg, t, X, Y);
  }

  /** Taking the front packet off an output queue keeps a node well-formed. */
  lemma PopNodeOk(t: TopologyType, X: nat, Y: nat, n: Node, d: Direction)
    requires NodeOk(t, X, Y, n) && TalliesAgree(n) && |n.outputQueues.Get(d)| > 0
    ensures NodeOk(t, X, Y, PopOutput(n, d)) && TalliesAgree(PopOutput(n, d))
  {
    var a := PopOutput(n, d);
    var q := n.outputQueues.Get(d);
    forall e
      ensures OutQueueOk(t, X, Y, a, e)
    {
      assert OutQueueOk(t, X, Y, n, e);
      assert forall p :: p in q[1..] ==> p in q;
    }
  }

  /** Appending a packet in flight at the node to its input queue keeps it well-formed. */
  lemma PushNodeOk(t: TopologyType, X: nat, Y: nat, n: Node, p: Packet)
    requires NodeOk(t, X, Y, n) && TalliesAgree(n) && InFlight(t, X, Y, n.pos, p)
    ensures NodeOk(t, X, Y, PushInput(n, p)) && TalliesAgree(PushInput(n, p))
  {
    var b := PushInput(n, p);
    forall e
      ensures OutQueueOk(t, X, Y, b, e)
    {
      assert OutQueueOk(t, X, Y, n, e);
    }
  }

  /** The packet move of one transfer keeps every node well-formed. */
  lemma MoveNodesOk(ns: seq<Node>, cfg: TopoConfig, t: TopologyType, X: nat, Y: nat, i: nat, d: Direction)
    requires Wired(ns, cfg, t, X, Y) && AllNodesOk(ns, t, X, Y) && i < |ns|
    requires |ns[i].outputQueues.Get(d)| > 0 && ns[i].neighbors.Get(d).Some?
    ensures ns[i].neighbors.Get(d).value < |ns|
    ensures AllNodesOk(MovePacket(ns, i, ns[i].neighbors.Get(d).value, d), t, X, Y)
  {
    var p := ns[i].outputQueues.Get(d)[0];
    TransferredInFlight(ns, cfg, t, X, Y, i, d);
    var m := ns[i].neighbors.Get(d).value;
    var a := PopOutput(ns[i], d);
    var ns1 := ns[i := a];
    PopNodeOk(t, X, Y, ns[i], d);
    ReplaceKeepsNodesOk(ns, i, a, t, X, Y);
    assert ns1[m].pos == ns[m].pos;
    PushNodeOk(t, X, Y, ns1[m], Hopped(p));
    ReplaceKeepsNodesOk(ns1, m, PushInput(ns1[m], Hopped(p)), t, X, Y);
  }

  lemma TransferDirNodesOk(ns: seq<Node>, cfg: TopoConfig, t: TopologyType, X: nat, Y: nat, i: nat, d: Direction)
    requires Wired(ns, cfg, t, X, Y) && AllNodesOk(ns, t, X, Y) && i < |ns| && LinksInRange(ns)
    ensures AllNodesOk(TransferDir(ns, i, d), t, X, Y)
  {
    if |ns[i].outputQueues.Get(d)| > 0 && d != Local && ns[i].neighbors.Get(d).Some? {
      MoveNodesOk(ns, cfg, t, X, Y, i, d);
    }
  }

  /** Queued ids of a node after its queue in direction d loses its front packet. */
  lemma PopIds(n: Node, d: Direction)
    requires |n.outputQueues.Get(d)| > 0
    ensures QueuedIds(PopOutput(n, d)) + multiset{n.outputQueues.Get(d)[0].packetId} == QueuedIds(n)
  {
    var q := n.outputQueues.Get(d);
    var o := PopOutput(n, d).outputQueues;
    assert Ids(q[1..]) + multiset{q[0].packetId} == Ids(q);
    match d
    case North => assert o == n.outputQueues.(north := q[1..]);
    case South => assert o == n.outputQueues.(south := q[1..]);
    case East => assert o == n.outputQueues.(east := q[1..]);
    case West => assert o == n.outputQueues.(west := q[1..]);
    case Local => assert o == n.outputQueues.(local := q[1..]);
  }

  /** Queued ids of a node after a packet joins its input queue. */
  lemma PushIds(n: Node, p: Packet)
    ensures QueuedIds(PushInput(n, p)) == QueuedIds(n) + multiset{p.packetId}
  {
    IdsAppend(n.inputQueue, [p]);
    assert [p][1..] == [];
  }

  /** Multiset bookkeeping of a move: one id leaves node i and joins node m. */
  lemma MoveOne(u0: multiset<nat>, u1: multiset<nat>, u2: multiset<nat>, qi: multiset<nat>, a: multiset<nat>,
                qm: multiset<nat>, b: multiset<nat>, x: multiset<nat>)
    requires u1 + qi == u0 + a && a + x == qi
    requires u2 + qm == u1 + b && b == qm + x
    ensures u2 == u0
  {
    forall o
      ensures u2[o] == u0[o]
    {
      assert (u1 + qi)[o] == (u0 + a)[o] && (a + x)[o] == qi[o];
      assert (u2 + qm)[o] == (u1 + b)[o] && b[o] == (qm + x)[o];
    }
    assert u2 == u0;
  }

  /** The packet move of one transfer keeps the multiset of queued ids. */
  lemma MoveIds(ns: seq<Node>, i: nat, m: nat, d: Direction)
    requires i < |ns| && m < |ns| && |ns[i].outputQueues.Get(d)| > 0
    ensures UnionOver(MovePacket(ns, i, m, d), QueuedIds) == UnionOver(ns, QueuedIds)
  {
    var p := ns[i].outputQueues.Get(d)[0];
    var a := PopOutput(ns[i], d);
    var ns1 := ns[i := a];
    var b := PushInput(ns1[m], Hopped(p));
    var qi, qa, qm, qb := QueuedIds(ns[i]), QueuedIds(a), QueuedIds(ns1[m]), QueuedIds(b);
    assert qa + multiset{p.packetId} == qi by { PopIds(ns[i], d); }
    assert qb == qm + multiset{p.packetId} by { PushIds(ns1[m], Hopped(p)); }
    assert UnionOver(ns1, QueuedIds) + qi == UnionOver(ns, QueuedIds) + qa by { UnionOverUpdate(ns, i, a, QueuedIds); }
    assert UnionOver(ns1[m := b], QueuedIds) + qm == UnionOver(ns1, QueuedIds) + qb by { UnionOverUpdate(ns1, m, b, QueuedIds); }
    MoveOne(UnionOver(ns, QueuedIds), UnionOver(ns1, QueuedIds), UnionOver(ns1[m := b], QueuedIds),
            qi, qa, qm, qb, multiset{p.packetId});
  }

  lemma TransferDirIds(ns: seq<Node>, i: nat, d: Direction)
    requires i < |ns| && LinksInRange(ns)
    ensures UnionOver(TransferDir(ns, i, d), QueuedIds) == UnionOver(ns, QueuedIds)
  {
    if |ns[i].outputQueues.Get(d)| > 0 && d != Local && ns[i].neighbors.Get(d).Some? {
      MoveIds(ns, i, ns[i].neighbors.Get(d).value, d);
    }
  }

  /** Node tables agreeing on setups and counters have the same sent and received totals. */
  lemma SameCountersSums(a: seq<Node>, b: seq<Node>)
    requires SameSetups(a, b) && forall j :: 0 <= j < |a| ==> SameCounters(a[j], b[j])
    ensures SumOver(a, Sent) == SumOver(b, Sent) && SumOver(a, Received) == SumOver(b, Received)
  {
    assert forall j :: 0 <= j < |a| ==> SameSetup(a[j], b[j]) && SameCounters(a[j], b[j]);
    SumOverPointwise(a, b, Sent);
    SumOverPointwise(a, b, Received);
  }

  lemma TransferDirInv(ns: seq<Node>, cfg: TopoConfig, t: TopologyType, X: nat, Y: nat, counter: nat, delivered: multiset<nat>,
                       i: nat, d: Direction)
    requires Inv(ns, cfg, t, X, Y, counter, delivered) && i < |ns| && LinksInRange(ns)
    ensures Inv(TransferDir(ns, i, d), cfg, t, X, Y, counter, delivered)
  {
    var r := TransferDir(ns, i, d);
    TransferDirSame(ns, i, d);
    assert Wired(r, cfg, t, X, Y) by { SameSetupsWired(ns, r, cfg, t, X, Y); }
    assert AllNodesOk(r, t, X, Y) by { TransferDirNodesOk(ns, cfg, t, X, Y, i, d); }
    assert SumOver(r, Sent) == counter && SumOver(r, Received) == |delivered| by { SameCountersSums(ns, r); }
    assert UnionOver(r, QueuedIds) + delivered == Range(counter) by { TransferDirIds(ns, i, d); }
  }

  /** The whole transfer phase of node i keeps the invariant. */
  lemma {:induction false} TransferAllInv(ns: seq<Node>, cfg: TopoConfig, t: TopologyType, X: nat, Y: nat, counter: nat,
                                          delivered: multiset<nat>, i: nat, k: nat)
    requires Inv(ns, cfg, t, X, Y, counter, delivered) && i < |ns| && LinksInRange(ns) && k <= |AllDirections|
    ensures Inv(TransferAll(ns, i, k), cfg, t, X, Y, counter, delivered)
  {
    if k > 0 {
      var prev := TransferAll(ns, i, k - 1);
      var d := AllDirections[k - 1];
      TransferAllInv(ns, cfg, t, X, Y, counter, delivered, i, k - 1);
      TransferDirInv(prev, cfg, t, X, Y, counter, delivered, i, d);
      assert TransferAll(ns, i, k) == TransferDir(prev, i, d);
    }
  }

  // ---------------------------------------------------------------------
  // A node's processing and a whole step keep the invariant
  // ---------------------------------------------------------------------

  lemma RoutePhaseInv(ns: seq<Node>, cfg: TopoConfig, t: TopologyType, X: nat, Y: nat, counter: nat, delivered: multiset<nat>, i: nat)
    requires Inv(ns, cfg, t, X, Y, counter, delivered) && i < |ns|
    ensures Inv(ns[i := RouteAll(ns[i])], cfg, t, X, Y, counter, delivered + DeliveredIds(ns[i]))
  {
    var n := ns[i];
    RouteKeepsStructure(ns, cfg, t, X, Y, i);
    assert RouteAll(n).packetsReceived == n.packetsReceived + |DeliveredIds(n)| by {
      RouteAllCounters(n);
    }
    RouteAllIds(n);
    RouteKeepsCounts(ns, counter, delivered, i, RouteAll(n), DeliveredIds(n));
  }

  lemma RouteKeepsStructure(ns: seq<Node>, cfg: TopoConfig, t: TopologyType, X: nat, Y: nat, i: nat)
    requires Wired(ns, cfg, t, X, Y) && AllNodesOk(ns, t, X, Y) && i < |ns|
    ensures Wired(ns[i := RouteAll(ns[i])], cfg, t, X, Y) && AllNodesOk(ns[i := RouteAll(ns[i])], t, X, Y)
  {
    var n := ns[i];
    var r := RouteAll(n);
    assert NodeOk(t, X, Y, n) && TalliesAgree(n) && WiredNode(n, i, cfg, t, X, Y);
    RouteAllOk(t, X, Y, n);
    RouteAllTallies(n);
    ReplaceKeepsWired(ns, i, r, cfg, t, X, Y);
    ReplaceKeepsNodesOk(ns, i, r, t, X, Y);
  }

  /** Replacing node i by one that delivered the ids x keeps the counts and moves x from queued to delivered. */
  lemma RouteKeepsCounts(ns: seq<Node>, counter: nat, delivered: multiset<nat>, i: nat, r: Node, x: multiset<nat>)
    requires i < |ns|
    requires QueuedIds(r) + x == QueuedIds(ns[i])
    requires r.packetsSent == ns[i].packetsSent && r.packetsReceived == ns[i].packetsReceived + |x|
    requires SumOver(ns, Sent) == counter && SumOver(ns, Received) == |delivered|
    requires UnionOver(ns, QueuedIds) + delivered == Range(counter)
    ensures SumOver(ns[i := r], Sent) == counter
    ensures SumOver(ns[i := r], Received) == |delivered + x|
    ensures UnionOver(ns[i := r], QueuedIds) + (delivered + x) == Range(counter)
  {
    ReplaceSums(ns, i, r);
    Deliver(UnionOver(ns[i := r], QueuedIds), UnionOver(ns, QueuedIds), QueuedIds(ns[i]), QueuedIds(r), x, delivered, Range(counter));
  }

  lemma Deliver(u1: multiset<nat>, u0: multiset<nat>, qn: multiset<nat>, qr: multiset<nat>, x: multiset<nat>,
                delivered: multiset<nat>, range: multiset<nat>)
    requires u1 + qn == u0 + qr && qr + x == qn && u0 + delivered == range
    ensures u1 + (delivered + x) == range
  {
    forall o
      ensures (u1 + (delivered + x))[o] == range[o]
    {
      assert (u1 + qn)[o] == (u0 + qr)[o] && (qr + x)[o] == qn[o] && (u0 + delivered)[o] == range[o];
    }
    assert u1 + (delivered + x) == range;
  }

  /** One node's packet processing keeps the invariant; the packets it delivers join the delivered ones. */
  lemma ProcessNodeInv(ns: seq<Node>, cfg: TopoConfig, t: TopologyType, X: nat, Y: nat, counter: nat, delivered: multiset<nat>, i: nat)
    requires Inv(ns, cfg, t, X, Y, counter, delivered) && i < |ns|
    ensures LinksInRange(ns)
    ensures Inv(ProcessNode(ns, i), cfg, t, X, Y, counter, delivered + DeliveredIds(ns[i]))
  {
    WiredLinksInRange(ns, cfg, t, X, Y);
    RoutePhaseInv(ns, cfg, t, X, Y, counter, delivered, i);
    var routed := ns[i := RouteAll(ns[i])];
    WiredLinksInRange(routed, cfg, t, X, Y);
    TransferAllInv(routed, cfg, t, X, Y, counter, delivered + DeliveredIds(ns[i]), i, |AllDirections|);
  }

  /** The delivered ids after processing order[0], ..., order[k-1] from node table ns, starting from `delivered`. */
  function DeliveredAfterOrder(ns: seq<Node>, order: seq<nat>, k: nat, delivered: multiset<nat>): multiset<nat>
    requires LinksInRange(ns) && OrderInRange(order, |ns|) && k <= |order|
  {
    if k == 0 then delivered
    else DeliveredAfterOrder(ns, order, k - 1, delivered) + DeliveredIds(ProcessOrder(ns, order, k - 1)[order[k - 1]])
  }

  /** One more node processed: the table and the delivered ids each take one step. */
  lemma ProcessOrderNext(ns: seq<Node>, order: seq<nat>, k: nat, delivered: multiset<nat>)
    requires LinksInRange(ns) && OrderInRange(order, |ns|) && k < |order|
    ensures ProcessOrder(ns, order, k + 1) == ProcessNode(ProcessOrder(ns, order, k), order[k])
    ensures DeliveredAfterOrder(ns, order, k + 1, delivered)
            == DeliveredAfterOrder(ns, order, k, delivered) + DeliveredIds(ProcessOrder(ns, order, k)[order[k]])
  {
  }

  lemma ProcessNextInv(ns: seq<Node>, cfg: TopoConfig, t: TopologyType, X: nat, Y: nat, counter: nat,
                       delivered: multiset<nat>, order: seq<nat>, k: nat, prev: seq<Node>, r: seq<Node>)
    requires LinksInRange(ns) && OrderInRange(order, |ns|) && 0 < k <= |order|
    requires prev == ProcessOrder(ns, order, k - 1) && r == ProcessOrder(ns, order, k)
    requires Inv(prev, cfg, t, X, Y, counter, DeliveredAfterOrder(ns, order, k - 1, delivered))
    ensures Inv(r, cfg, t, X, Y, counter, DeliveredAfterOrder(ns, order, k, delivered))
  {
    ProcessNodeInv(prev, cfg, t, X, Y, counter, DeliveredAfterOrder(ns, order, k - 1, delivered), order[k - 1]);
  }

  /** Processing nodes in any order keeps the invariant, adding exactly the ids delivered on the way. */
  lemma {:induction false} ProcessOrderInv(ns: seq<Node>, cfg: TopoConfig, t: TopologyType, X: nat, Y: nat, counter: nat,
                                           delivered: multiset<nat>, order: seq<nat>, k: nat, r: seq<Node>)
    requires Inv(ns, cfg, t, X, Y, counter, delivered) && OrderInRange(order, |ns|) && k <= |order|
    requires LinksInRange(ns) && r == ProcessOrder(ns, order, k)
    ensures Inv(r, cfg, t, X, Y, counter, DeliveredAfterOrder(ns, order, k, delivered))
    decreases k
  {
    if k > 0 {
      var prev := ProcessOrder(ns, order, k - 1);
      ProcessOrderInv(ns, cfg, t, X, Y, counter, delivered, order, k - 1, prev);
      ProcessNextInv(ns, cfg, t, X, Y, counter, delivered, order, k, prev, r);
    }
  }

  /** The delivered ids after `steps` simulation steps from node table ns, starting from `delivered`. */
  function DeliveredAfterSteps(ns: seq<Node>, order: seq<nat>, steps: nat, delivered: multiset<nat>): multiset<nat>
    requires LinksInRange(ns) && OrderInRange(order, |ns|)
  {
    if steps == 0 then delivered
    else DeliveredAfterOrder(Steps(ns, order, steps - 1), order, |order|, DeliveredAfterSteps(ns, order, steps - 1, delivered))
  }

  /** The invariant after `steps` steps, given that the first steps - 1 keep it. */
  lemma {:induction false} StepNextInv(ns: seq<Node>, cfg: TopoConfig, t: TopologyType, X: nat, Y: nat, counter: nat,
                                       delivered: multiset<nat>, order: seq<nat>, steps: nat, r: seq<Node>)
    requires Inv(ns, cfg, t, X, Y, counter, delivered) && OrderInRange(order, |ns|)
    requires LinksInRange(ns) && 0 < steps && r == Steps(ns, order, steps)
    ensures Inv(r, cfg, t, X, Y, counter, DeliveredAfterSteps(ns, order, steps, delivered))
    decreases steps, 0
  {
    var prev := Steps(ns, order, steps - 1);
    StepsInv(ns, cfg, t, X, Y, counter, delivered, order, steps - 1, prev);
    ProcessOrderInv(prev, cfg, t, X, Y, counter, DeliveredAfterSteps(ns, order, steps - 1, delivered), order, |order|, r);
  }

  /**
   * Any number of simulation steps keeps the invariant: every packet ever
   * sent is, exactly once, either still queued somewhere or delivered.
   */
  lemma {:induction false} StepsInv(ns: seq<Node>, cfg: TopoConfig, t: TopologyType, X: nat, Y: nat, counter: nat,
                                    delivered: multiset<nat>, order: seq<nat>, steps: nat, r: seq<Node>)
    requires Inv(ns, cfg, t, X, Y, counter, delivered) && OrderInRange(order, |ns|)
    requires LinksInRange(ns) && r == Steps(ns, order, steps)
    ensures Inv(r, cfg, t, X, Y, counter, DeliveredAfterSteps(ns, order, steps, delivered))
    decreases steps, 1
  {
    if steps > 0 {
      StepNextInv(ns, cfg, t, X, Y, counter, delivered, order, steps, r);
    }
  }
}
