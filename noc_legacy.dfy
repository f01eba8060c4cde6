/**
 * The earlier NoC classes (`deprecated/noc_node_class.py`): the same mesh
 * of node objects with memory nodes at the corners by default, but a
 * compute node runs a single-stream CPU over its own 4 KiB window and
 * every memory node serves a fixed 128 MiB range.  No links are built and
 * no address space is shared out.
 */
module NocLegacy {
  import opened Wrappers
  import opened Grid
  import opened NodeSets
  import NocNodes

  type AddrRange = NocNodes.AddrRange

  /** Bytes in a compute node's CPU window. */
  const WindowSize: nat := 4096

  /** The last address a memory controller serves: 128 MiB - 1. */
  const MemCtrlEnd: nat := 134217727

  /**
   * A node as the constructor leaves it; nothing changes it afterwards.
   * `cpuWindow` is the stream generator's [start, max] address pair and
   * `memRange` the memory controller's range.
   */
  datatype NoCNode = NoCNode(nodeId: nat, pos: Coord, isMemoryNode: bool,
                             cpuWindow: Option<AddrRange>, memRange: Option<AddrRange>)

  /** The 4 KiB window of the CPU of node `id`. */
  function CpuWindow(id: nat): AddrRange
  {
    NocNodes.AddrRange(id * WindowSize, (id + 1) * WindowSize - 1)
  }

  /** `NoCNode.__init__`: a memory controller for a memory node, a CPU and cache otherwise. */
  function NewNode(id: nat, pos: Coord, isMemoryNode: bool): (r: NoCNode)
    ensures r.nodeId == id && r.pos == pos && r.isMemoryNode == isMemoryNode
    ensures r.cpuWindow.Some? <==> !isMemoryNode
    ensures r.memRange.Some? <==> isMemoryNode
  {
    if isMemoryNode then NoCNode(id, pos, true, None, Some(NocNodes.AddrRange(0, MemCtrlEnd)))
    else NoCNode(id, pos, false, Some(CpuWindow(id)), None)
  }

  /** `get_info`: id, position and a type tag. */
  datatype NodeInfo = NodeInfo(nodeId: nat, position: Coord, kind: string)

  function GetInfo(n: NoCNode): NodeInfo
  {
    NodeInfo(n.nodeId, n.pos, if n.isMemoryNode then "memory" else "compute")
  }

  /**
   * The information of a new node repeats its id and position and is tagged
   * "memory" exactly for a memory node and "compute" exactly otherwise; a
   * memory node serves addresses 0 to 128 MiB - 1.
   */
  lemma InfoReflectsRole(id: nat, pos: Coord, isMemoryNode: bool)
    ensures var info := GetInfo(NewNode(id, pos, isMemoryNode));
            && info.nodeId == id && info.position == pos
            && (info.kind == "memory" <==> isMemoryNode)
            && (info.kind == "compute" <==> !isMemoryNode)
    ensures isMemoryNode ==>
              NewNode(id, pos, isMemoryNode).memRange.value.end - NewNode(id, pos, isMemoryNode).memRange.value.start + 1
              == 128 * 1024 * 1024
  {
    assert "memory" != "compute" by { assert "memory"[0] != "compute"[0]; }
  }

  /**
   * Every CPU window holds exactly 4096 addresses, starts at a non-negative
   * address, and the window of id + 1 starts right after the one of id.
   */
  lemma CpuWindowLayout(id: nat)
    ensures CpuWindow(id).start >= 0
    ensures CpuWindow(id).end - CpuWindow(id).start + 1 == WindowSize
    ensures CpuWindow(id + 1).start == CpuWindow(id).end + 1
  {
  }

  /** The windows of two distinct nodes do not overlap; a lower id has the lower window. */
  lemma CpuWindowsDisjoint(a: nat, b: nat)
    requires a < b
    ensures CpuWindow(a).end < CpuWindow(b).start
  {
    MulMonotone(a + 1, b, WindowSize);
  }

  function IsMemory(n: NoCNode): bool
  {
    n.isMemoryNode
  }

  function IsCompute(n: NoCNode): bool
  {
    !n.isMemoryNode
  }

  class NoCMesh {
    const meshSizeX: nat
    const meshSizeY: nat
    const totalNodes: nat
    const linkBandwidth: string
    const linkLatency: string
    const memoryNodes: set<int>

    var nodes: seq<NoCNode>

    /** Node i is the node `_create_nodes` makes for id i. */
    predicate CreatedUpTo(n: nat)
      reads this
    {
      && meshSizeX > 0
      && n <= |nodes|
      && forall i :: 0 <= i < n ==> nodes[i] == NewNode(i, CoordOf(meshSizeX, i), i in memoryNodes)
    }

    /** The state `__init__` leaves: one node per id of the mesh. */
    predicate Built()
      reads this
    {
      totalNodes == meshSizeX * meshSizeY && |nodes| == totalNodes && (totalNodes == 0 || CreatedUpTo(totalNodes))
    }

    /** `__init__`: store the sizes and the memory-node set, then create the nodes. */
    constructor(meshSizeX: nat := 4, meshSizeY: nat := 4, linkBandwidth: string := "40GiB/s", linkLatency: string := "50ps",
                memoryNodes: Option<seq<int>> := None)
      ensures this.meshSizeX == meshSizeX && this.meshSizeY == meshSizeY
      ensures this.linkBandwidth == linkBandwidth && this.linkLatency == linkLatency
      ensures this.memoryNodes == MemoryNodeSet(meshSizeX, meshSizeY, memoryNodes)
      ensures Built()
    {
      this.meshSizeX := meshSizeX;
      this.meshSizeY := meshSizeY;
      this.totalNodes := meshSizeX * meshSizeY;
      this.linkBandwidth := linkBandwidth;
      this.linkLatency := linkLatency;
      this.memoryNodes := MemoryNodeSet(meshSizeX, meshSizeY, memoryNodes);
      nodes := [];
      new;
      CreateNodes();
    }

    /** `_create_nodes`: appends node i at (i % X, i // X), a memory node exactly when i is in the memory set. */
    method CreateNodes()
      requires totalNodes == meshSizeX * meshSizeY && nodes == []
      modifies this
      ensures Built()
    {
      for i := 0 to totalNodes
        invariant |nodes| == i
        invariant i > 0 ==> CreatedUpTo(i)
      {
        assert meshSizeX > 0;
        var x, y := i % meshSizeX, i / meshSizeX;
        var isMemory := i in memoryNodes;
        var node := NewNode(i, Coord(x, y), isMemory);
        nodes := nodes + [node];
      }
    }

    /** `get_node`: the node of a valid list index, None for any other id. */
    function GetNode(nodeId: int): Option<NoCNode>
      reads this
    {
      if 0 <= nodeId < |nodes| then Some(nodes[nodeId]) else None
    }

    /** `get_compute_nodes`. */
    function GetComputeNodes(): seq<NoCNode>
      reads this
    {
      Filter(nodes, IsCompute)
    }

    /** `get_memory_nodes`. */
    function GetMemoryNodes(): seq<NoCNode>
      reads this
    {
      Filter(nodes, IsMemory)
    }
  }

  /**
   * In a built mesh `get_node` finds a node for exactly the ids 0..X*Y-1;
   * the node it finds carries that id and the id's row-major position, is a
   * memory node exactly when the id is in the memory set, and a compute node
   * found this way has the CPU window of its id.
   */
  lemma GetNodeFindsId(m: NoCMesh, nodeId: int)
    requires m.Built()
    ensures m.GetNode(nodeId).Some? <==> 0 <= nodeId < m.meshSizeX * m.meshSizeY
    ensures m.GetNode(nodeId).Some? ==>
              && m.meshSizeX > 0
              && m.GetNode(nodeId).value.nodeId == nodeId
              && m.GetNode(nodeId).value.pos == CoordOf(m.meshSizeX, nodeId)
              && (m.GetNode(nodeId).value.isMemoryNode <==> nodeId in m.memoryNodes)
              && (nodeId !in m.memoryNodes ==> m.GetNode(nodeId).value.cpuWindow == Some(CpuWindow(nodeId)))
  {
    if 0 <= nodeId < |m.nodes| {
      assert m.nodes[nodeId] == NewNode(nodeId, CoordOf(m.meshSizeX, nodeId), nodeId in m.memoryNodes);
    }
  }

  /**
   * Compute and memory nodes partition the nodes of a mesh, and a built mesh
   * has one memory node per id of the memory set below X*Y.
   */
  lemma NodePartition(m: NoCMesh)
    requires m.Built()
    ensures |m.GetComputeNodes()| + |m.GetMemoryNodes()| == |m.nodes| == m.meshSizeX * m.meshSizeY
    ensures multiset(m.GetComputeNodes()) + multiset(m.GetMemoryNodes()) == multiset(m.nodes)
    ensures |m.GetMemoryNodes()| == |IdsBelow(m.memoryNodes, m.meshSizeX * m.meshSizeY)|
  {
    FilterPartition(m.nodes, IsMemory, IsCompute);
    forall i | 0 <= i < |m.nodes|
      ensures IsMemory(m.nodes[i]) <==> i in m.memoryNodes
    {
      assert m.nodes[i] == NewNode(i, CoordOf(m.meshSizeX, i), i in m.memoryNodes);
    }
    FilterCountByIndex(m.nodes, IsMemory, m.memoryNodes);
  }

  /** With the default corners, a built mesh at least 2x2 has exactly four memory nodes. */
  lemma DefaultMeshHasFourMemoryNodes(m: NoCMesh)
    requires m.Built() && m.meshSizeX >= 2 && m.meshSizeY >= 2
    requires m.memoryNodes == DefaultMemoryNodes(m.meshSizeX, m.meshSizeY)
    ensures |m.GetMemoryNodes()| == 4 && |m.GetComputeNodes()| == m.meshSizeX * m.meshSizeY - 4
  {
    NodePartition(m);
    DefaultIdsBelow(m.meshSizeX, m.meshSizeY);
    DefaultMemoryCount(m.meshSizeX, m.meshSizeY);
  }

  /** In a built mesh the CPU windows of two different compute nodes do not overlap. */
  lemma ComputeWindowsDisjoint(m: NoCMesh, i: nat, j: nat)
    requires m.Built() && i < j < |m.nodes|
    requires !m.nodes[i].isMemoryNode && !m.nodes[j].isMemoryNode
    ensures m.nodes[i].cpuWindow.value.end < m.nodes[j].cpuWindow.value.start
  {
    assert m.nodes[i] == NewNode(i, CoordOf(m.meshSizeX, i), i in m.memoryNodes);
    assert m.nodes[j] == NewNode(j, CoordOf(m.meshSizeX, j), j in m.memoryNodes);
    CpuWindowsDisjoint(i, j);
  }
}
