/**
 * One node of the shared-memory NoC mesh (`NoCNode` of `noc_node_class.py`):
 * a router plus either a Miranda CPU with its L1 cache and network interface
 * (a compute node) or a shared memory controller (a memory node).  The SST
 * components are abstracted away; what is kept is the node's identity, its
 * role, the address arithmetic of the workload a compute node receives and
 * the address range of a memory node's controller.
 */
module NocNodes {
  import opened Wrappers
  import opened Grid
  import opened CoreTypes

  /** The 512 MiB shared address space split among the nodes. */
  const SharedMemory: nat := 512 * 1024 * 1024

  /** Exceptions the node construction can raise. */
  datatype Error = ZeroDivisionError

  /** An inclusive address range `[start, end]` of a memory controller or generator. */
  datatype AddrRange = AddrRange(start: int, end: int)

  /**
   * The generator a compute node is configured with, reduced to its address
   * parameters: STREAM start addresses a, b, c; random or GUPS access between
   * a minimum and a maximum address; a single stream from a start address.
   */
  datatype NodeWorkload =
    | StreamBench(startA: int, startB: int, startC: int)
    | RemoteRandom(minAddress: int, maxAddress: int)
    | NeighborStream(startAddress: int)
    | MultiNodeGups(minAddress: int, maxAddress: int)

  /** `workload_type` of each generator. */
  function Description(w: NodeWorkload): string
  {
    match w
    case StreamBench(_, _, _) => "主控核心 - STREAM基准测试（跨节点访问）"
    case RemoteRandom(_, _) => "分布式访问核心 - 远程随机访问"
    case NeighborStream(_) => "边界通信核心 - 邻居节点访问"
    case MultiNodeGups(_, _) => "分布式计算核心 - 多节点GUPS测试"
  }

  const MemoryDescription: string := "共享内存控制器 - 512MB"
  const NoWorkloadDescription: string := "未配置工作负载"

  /** Share of the address space of each of the X*Y nodes (`memory_per_node`). */
  function MemoryPerNode(total: nat): nat
    requires total > 0
  {
    SharedMemory / total
  }

  /** Node k's share: `[k * mpn, k * mpn + mpn)`. */
  predicate InShare(a: int, k: int, mpn: nat)
  {
    k * mpn <= a < k * mpn + mpn
  }

  /**
   * `_configure_workload` of a compute node with id `id` at position `c`:
   * the master corner streams over its own share, the opposite corner reads
   * randomly in the share half the mesh away, the other border nodes stream
   * from their successor's share and inner nodes run GUPS over up to two
   * shares starting at their own.  An empty mesh divides by zero.
   */
  function ConfigureWorkload(id: nat, c: Coord, X: nat, Y: nat): (r: Result<NodeWorkload, Error>)
    ensures r.Err? <==> X * Y == 0
    ensures r.Ok? ==> (r.value.StreamBench? <==> PositionClass(X, Y, c) == MasterCore)
    ensures r.Ok? ==> (r.value.RemoteRandom? <==> PositionClass(X, Y, c) == MemoryControllerCore)
    ensures r.Ok? ==> (r.value.NeighborStream? <==> PositionClass(X, Y, c) == IoCore)
    ensures r.Ok? ==> (r.value.MultiNodeGups? <==> PositionClass(X, Y, c) == ComputeCore)
  {
    var total := X * Y;
    if total == 0 then Err(ZeroDivisionError)
    else
      var mpn := MemoryPerNode(total);
      var base := id * mpn;
      match PositionClass(X, Y, c)
      case MasterCore => Ok(StreamBench(base, base + mpn / 3, base + 2 * mpn / 3))
      case MemoryControllerCore =>
        var remoteBase := ((id + total / 2) % total) * mpn;
        Ok(RemoteRandom(remoteBase, remoteBase + mpn - 1))
      case IoCore => Ok(NeighborStream(((id + 1) % total) * mpn))
      case ComputeCore =>
        var range := Min(mpn * 2, SharedMemory - base);
        Ok(MultiNodeGups(base, base + range - 1))
  }

  /**
   * What a node holds: memory nodes have no workload and a controller
   * range, compute nodes a workload and no controller.
   */
  datatype NodeView = NodeView(nodeId: nat, pos: Coord, isMemoryNode: bool,
                               workload: Option<NodeWorkload>, memRange: Option<AddrRange>)

  /** `NoCNode.__init__`: a memory controller over the whole space, or a configured compute node. */
  function NewNode(id: nat, c: Coord, X: nat, Y: nat, isMemoryNode: bool): (r: Result<NodeView, Error>)
    ensures r.Err? <==> !isMemoryNode && X * Y == 0
    ensures r.Ok? ==> r.value.nodeId == id && r.value.pos == c && r.value.isMemoryNode == isMemoryNode
    ensures r.Ok? ==> (r.value.workload.Some? <==> !isMemoryNode) && (r.value.memRange.Some? <==> isMemoryNode)
    ensures r.Ok? && isMemoryNode ==> r.value.memRange == Some(AddrRange(0, SharedMemory - 1))
  {
    if isMemoryNode then Ok(NodeView(id, c, true, None, Some(AddrRange(0, SharedMemory - 1))))
    else
      match ConfigureWorkload(id, c, X, Y)
      case Err(e) => Err(e)
      case Ok(w) => Ok(NodeView(id, c, false, Some(w), None))
  }

  /** `get_info`. */
  datatype NodeInfo = NodeInfo(nodeId: nat, position: Coord, workload: string)

  function InfoOf(v: NodeView): NodeInfo
  {
    if v.isMemoryNode then NodeInfo(v.nodeId, v.pos, MemoryDescription)
    else NodeInfo(v.nodeId, v.pos, match v.workload case Some(w) => Description(w) case None => NoWorkloadDescription)
  }

  /**
   * A node object of the mesh.  Its identity, role and workload are fixed on
   * construction; the address range of its memory controller is rewritten
   * by the mesh's memory mapping.
   */
  class NoCNode {
    const nodeId: nat
    const pos: Coord
    const isMemoryNode: bool
    const workload: Option<NodeWorkload>
    var memRange: Option<AddrRange>

    function View(): NodeView
      reads this
    {
      NodeView(nodeId, pos, isMemoryNode, workload, memRange)
    }

    constructor(v: NodeView)
      ensures View() == v
    {
      nodeId, pos, isMemoryNode, workload := v.nodeId, v.pos, v.isMemoryNode, v.workload;
      memRange := v.memRange;
    }

    function GetInfo(): NodeInfo
      reads this
    {
      InfoOf(View())
    }
  }

  /** Constructing a node object: the new node, or the exception `__init__` raises. */
  method CreateNode(id: nat, c: Coord, X: nat, Y: nat, isMemoryNode: bool) returns (r: Result<NoCNode, Error>)
    ensures r.Err? <==> NewNode(id, c, X, Y, isMemoryNode).Err?
    ensures r.Err? ==> r.error == NewNode(id, c, X, Y, isMemoryNode).error
    ensures r.Ok? ==> fresh(r.value) && r.value.View() == NewNode(id, c, X, Y, isMemoryNode).value
  {
    var v := NewNode(id, c, X, Y, isMemoryNode);
    if v.Err? {
      return Err(v.error);
    }
    var n := new NoCNode(v.value);
    return Ok(n);
  }

  /**
   * A constructed node reports the memory description exactly when it is a
   * memory node, and never the "no workload" fallback, since every compute
   * node is configured on construction.
   */
  lemma InfoReflectsRole(id: nat, c: Coord, X: nat, Y: nat, isMemoryNode: bool)
    requires NewNode(id, c, X, Y, isMemoryNode).Ok?
    ensures var info := InfoOf(NewNode(id, c, X, Y, isMemoryNode).value);
            && info.nodeId == id && info.position == c
            && (info.workload == MemoryDescription <==> isMemoryNode)
            && info.workload != NoWorkloadDescription
  {
    var n := NewNode(id, c, X, Y, isMemoryNode).value;
    if !isMemoryNode {
      var w := n.workload.value;
      assert Description(w) != MemoryDescription && Description(w) != NoWorkloadDescription by {
        match w
        case StreamBench(_, _, _) =>
        case RemoteRandom(_, _) =>
        case NeighborStream(_) =>
        case MultiNodeGups(_, _) =>
      }
    }
  }

  // ---------------------------------------------------------------------
  // Address arithmetic
  // ---------------------------------------------------------------------

  lemma MulLe(a: nat, b: nat, k: nat)
    requires a <= b
    ensures a * k <= b * k
  {
  }

  /** Every node's share ends inside the shared space: `(k + 1) * mpn <= 512 MiB` for k below the node count. */
  lemma ShareInside(k: nat, total: nat)
    requires k < total
    ensures 0 <= k * MemoryPerNode(total) && k * MemoryPerNode(total) + MemoryPerNode(total) <= SharedMemory
  {
    var mpn := MemoryPerNode(total);
    MulLe(k + 1, total, mpn);
    assert total * mpn <= SharedMemory;
    assert (k + 1) * mpn == k * mpn + mpn;
  }

  /** Every address a workload names. */
  predicate AddressesWithin(w: NodeWorkload, lo: int, hi: int)
  {
    match w
    case StreamBench(a, b, c) => lo <= a <= b <= c < hi
    case RemoteRandom(a, b) => lo <= a <= b < hi
    case NeighborStream(a) => lo <= a < hi
    case MultiNodeGups(a, b) => lo <= a <= b < hi
  }

  /**
   * Whenever every node gets a non-empty share (at most 512 Mi nodes), the
   * workload of node `id` of the mesh names only addresses of the shared
   * space, and its ranges are non-empty.
   */
  lemma WorkloadWithinSharedMemory(id: nat, c: Coord, X: nat, Y: nat)
    requires id < X * Y && X * Y <= SharedMemory
    ensures ConfigureWorkload(id, c, X, Y).Ok?
    ensures AddressesWithin(ConfigureWorkload(id, c, X, Y).value, 0, SharedMemory)
  {
    var total := X * Y;
    var mpn := MemoryPerNode(total);
    WorkloadShares(id, c, X, Y);
    match ConfigureWorkload(id, c, X, Y).value
    case StreamBench(_, _, _) =>
      ShareInside(id, total);
    case RemoteRandom(_, _) =>
      ShareInside((id + total / 2) % total, total);
    case NeighborStream(_) =>
      ShareInside((id + 1) % total, total);
    case MultiNodeGups(_, _) =>
      ShareInside(id, total);
  }

  /**
   * Which share each role's workload addresses: the master streams inside
   * its own share, the opposite corner reads exactly the share of node
   * `(id + total / 2) % total`, the other border nodes start at the share of
   * node `(id + 1) % total`, and inner nodes cover their own share and at
   * most the next one.
   */
  lemma WorkloadShares(id: nat, c: Coord, X: nat, Y: nat)
    requires id < X * Y && X * Y <= SharedMemory
    ensures var total := X * Y;
            var mpn := MemoryPerNode(total);
            var w := ConfigureWorkload(id, c, X, Y).value;
            && (w.StreamBench? ==> w.startA == id * mpn && InShare(w.startB, id, mpn) && InShare(w.startC, id, mpn))
            && (w.RemoteRandom? ==> var k := (id + total / 2) % total;
                                    w.minAddress == k * mpn && w.maxAddress == k * mpn + mpn - 1)
            && (w.NeighborStream? ==> w.startAddress == ((id + 1) % total) * mpn)
            && (w.MultiNodeGups? ==> w.minAddress == id * mpn && id * mpn + mpn - 1 <= w.maxAddress < id * mpn + 2 * mpn)
  {
    var total := X * Y;
    var mpn := MemoryPerNode(total);
    assert mpn >= 1 by { MulLe(total, SharedMemory, 1); }
    ShareInside(id, total);
  }

  /** On a mesh of two or more nodes the random reader and the border streams target another node's share. */
  lemma RemoteTargetsDiffer(id: nat, total: nat)
    requires 2 <= total && id < total
    ensures (id + total / 2) % total != id
    ensures (id + 1) % total != id
  {
    ShiftMoves(id, total / 2, total);
    ShiftMoves(id, 1, total);
  }

  lemma ShiftMoves(id: nat, h: nat, total: nat)
    requires 1 <= h < total && id < total
    ensures (id + h) % total != id
  {
    if id + h < total {
      DivModUnique(id + h, total, 0, id + h);
    } else {
      DivModUnique(id + h, total, 1, id + h - total);
    }
  }

  /** Shares of distinct nodes do not overlap. */
  lemma SharesDisjoint(a: int, j: nat, k: nat, mpn: nat)
    requires InShare(a, j, mpn) && InShare(a, k, mpn)
    ensures j == k
  {
    if j < k {
      MulLe(j + 1, k, mpn);
    } else if k < j {
      MulLe(k + 1, j, mpn);
    }
  }
}
