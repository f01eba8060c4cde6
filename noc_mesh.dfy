/**
 * The shared-memory NoC mesh (`NoCMesh` of `noc_node_class.py`): one node
 * object per id of an X-by-Y mesh, memory nodes at the given ids (the four
 * corners by default), the router links of the mesh and a memory mapping
 * that splits the 512 MiB shared space among the memory controllers in id
 * order.
 */
module NocMesh {
  import opened Wrappers
  import opened Grid
  import opened NodeSets
  import opened MeshLinks
  import opened NocNodes

  function IsMemory(n: NoCNode): bool
  {
    n.isMemoryNode
  }

  function IsCompute(n: NoCNode): bool
  {
    !n.isMemoryNode
  }

  /** The controller range of the memory node of rank r when every one gets m bytes. */
  function RangeOf(r: nat, m: nat): AddrRange
  {
    AddrRange(r * m, r * m + m - 1)
  }

  /**
   * The mapping's ranges tile the shared space from address 0: each holds
   * `512 MiB // k` addresses, rank r + 1 starts right after rank r ends and
   * the last rank ends inside the shared space.
   */
  lemma RangeLayout(r: nat, k: nat)
    requires r < k
    ensures var m := SharedMemory / k;
            && RangeOf(0, m).start == 0
            && RangeOf(r, m).end - RangeOf(r, m).start + 1 == m
            && RangeOf(r + 1, m).start == RangeOf(r, m).end + 1
            && 0 <= RangeOf(r, m).start && RangeOf(r, m).end < SharedMemory
  {
    var m := SharedMemory / k;
    assert (r + 1) * m == r * m + m;
    MulLe(r + 1, k, m);
    assert k * m <= SharedMemory;
  }

  /** Ranges of distinct ranks do not overlap when the ranges are non-empty. */
  lemma RangesDisjoint(r1: nat, r2: nat, m: nat)
    requires r1 < r2 && m > 0
    ensures RangeOf(r1, m).end < RangeOf(r2, m).start
  {
    MulLe(r1 + 1, r2, m);
    assert (r1 + 1) * m == r1 * m + m;
  }

  class NoCMesh {
    const meshSizeX: nat
    const meshSizeY: nat
    const totalNodes: nat
    const linkBandwidth: string
    const linkLatency: string
    const memoryNodes: set<int>

    var nodes: seq<NoCNode>
    var links: seq<Link>

    /** The node count is the product of the sizes and no node object is listed twice. */
    predicate Valid()
      reads this
    {
      totalNodes == meshSizeX * meshSizeY && Distinct(nodes)
    }

    /** The fixed attributes `_create_nodes` gives the node of id i. */
    predicate CreatedAs(n: NoCNode, i: nat)
    {
      && i < meshSizeX * meshSizeY
      && NewNode(i, CoordOf(meshSizeX, i), meshSizeX, meshSizeY, i in memoryNodes).Ok?
      && var v := NewNode(i, CoordOf(meshSizeX, i), meshSizeX, meshSizeY, i in memoryNodes).value;
      && n.nodeId == v.nodeId && n.pos == v.pos && n.isMemoryNode == v.isMemoryNode && n.workload == v.workload
    }

    /** The r-th memory node, in id order, holds the r-th of k equal ranges. */
    ghost predicate RangesAssigned()
      reads this, set n | n in nodes
    {
      var mem := Filter(nodes, IsMemory);
      forall r :: 0 <= r < |mem| ==> mem[r].memRange == Some(RangeOf(r, SharedMemory / |mem|))
    }

    /** The state `__init__` leaves: every node created, linked and mapped. */
    ghost predicate Built()
      reads this, set n | n in nodes
    {
      && Valid()
      && |nodes| == totalNodes
      && (forall i :: 0 <= i < |nodes| ==> CreatedAs(nodes[i], i))
      && (forall n :: n in nodes && !n.isMemoryNode ==> n.memRange == None)
      && RangesAssigned()
      && links == AllLinks(meshSizeX, meshSizeY)
    }

    /** `__init__`: store the sizes and the memory-node set, then create, link and map the nodes. */
    constructor(meshSizeX: nat := 4, meshSizeY: nat := 4, linkBandwidth: string := "40GiB/s", linkLatency: string := "50ps",
                memoryNodes: Option<seq<int>> := None)
      ensures this.meshSizeX == meshSizeX && this.meshSizeY == meshSizeY
      ensures this.linkBandwidth == linkBandwidth && this.linkLatency == linkLatency
      ensures this.memoryNodes == MemoryNodeSet(meshSizeX, meshSizeY, memoryNodes)
      ensures Built()
    {
      this.meshSizeX := meshSizeX;
      this.meshSizeY := meshSizeY;
      this.totalNodes := meshSizeX * meshSizeY;
      this.linkBandwidth := linkBandwidth;
      this.linkLatency := linkLatency;
      this.memoryNodes := MemoryNodeSet(meshSizeX, meshSizeY, memoryNodes);
      nodes := [];
      links := [];
      new;
      var computeCount, memoryCount := CreateNodes();
      BuildMeshConnections();
    }

    /**
     * `_create_nodes`: appends node i at (i % X, i // X), a memory node
     * exactly when i is in the memory set, for every id, and counts both
     * kinds.
     */
    method CreateNodes() returns (computeCount: nat, memoryCount: nat)
      requires Valid() && nodes == []
      modifies this
      ensures Valid() && links == old(links)
      ensures |nodes| == totalNodes
      ensures forall i :: 0 <= i < |nodes| ==> CreatedAs(nodes[i], i)
      ensures forall n :: n in nodes ==> fresh(n) && (n.memRange.Some? <==> n.isMemoryNode)
      ensures forall n :: n in nodes && !n.isMemoryNode ==> n.memRange == None
      ensures memoryCount == |IdsBelow(memoryNodes, totalNodes)| && computeCount + memoryCount == totalNodes
    {
      computeCount, memoryCount := 0, 0;
      for i := 0 to totalNodes
        invariant Valid() && links == old(links)
        invariant |nodes| == i
        invariant forall k :: 0 <= k < i ==> CreatedAs(nodes[k], k)
        invariant forall n :: n in nodes ==> fresh(n) && (n.memRange.Some? <==> n.isMemoryNode)
        invariant memoryCount == |IdsBelow(memoryNodes, i)| && computeCount + memoryCount == i
      {
        assert meshSizeX > 0;
        var x, y := i % meshSizeX, i / meshSizeX;
        var isMemory := i in memoryNodes;
        var node := CreateNode(i, Coord(x, y), meshSizeX, meshSizeY, isMemory);
        assert node.Ok? && CreatedAs(node.value, i);
        assert node.value !in nodes;
        nodes := nodes + [node.value];
        IdsBelowStep(memoryNodes, i);
        if isMemory {
          memoryCount := memoryCount + 1;
        } else {
          computeCount := computeCount + 1;
        }
      }
    }

    /** `_build_mesh_connections`: the router links of the mesh, then the memory mapping. */
    method BuildMeshConnections()
      requires Valid()
      modifies this, set n | n in nodes
      ensures Valid() && nodes == old(nodes)
      ensures links == old(links) + AllLinks(meshSizeX, meshSizeY)
      ensures RangesAssigned()
      ensures forall n :: n in nodes && !n.isMemoryNode ==> n.memRange == old(n.memRange)
    {
      var meshLinks, linkCount := BuildMeshNetwork(meshSizeX, meshSizeY);
      links := links + meshLinks;
      ConfigureMemoryMapping();
    }

    /**
     * `_configure_memory_mapping`: with no memory node nothing happens;
     * otherwise the r-th memory node in id order gets the r-th of k equal
     * ranges of the shared space.  Compute nodes keep their state.
     */
    method ConfigureMemoryMapping()
      requires Valid()
      modifies set n | n in nodes
      ensures RangesAssigned()
      ensures forall n :: n in nodes && !n.isMemoryNode ==> n.memRange == old(n.memRange)
      ensures GetMemoryNodes() == [] ==> forall n :: n in nodes ==> n.memRange == old(n.memRange)
    {
      var memNodes := GetMemoryNodes();
      if |memNodes| == 0 {
        return;
      }
      FilterDistinct(nodes, IsMemory);
      var perNode := SharedMemory / |memNodes|;
      for i := 0 to |memNodes|
        invariant forall r :: 0 <= r < i ==> memNodes[r].memRange == Some(RangeOf(r, perNode))
        invariant forall n :: n in nodes && n !in memNodes[..i] ==> n.memRange == old(n.memRange)
      {
        memNodes[i].memRange := Some(RangeOf(i, perNode));
      }
    }

    /** `get_node`: the node of a valid list index, None for any other id. */
    function GetNode(nodeId: int): (r: Option<NoCNode>)
      reads this
      ensures r.Some? <==> 0 <= nodeId < |nodes|
      ensures r.Some? ==> r.value in nodes
    {
      if 0 <= nodeId < |nodes| then Some(nodes[nodeId]) else None
    }

    /** `get_compute_nodes`. */
    function GetComputeNodes(): seq<NoCNode>
      reads this
    {
      Filter(nodes, IsCompute)
    }

    /** `get_memory_nodes`. */
    function GetMemoryNodes(): seq<NoCNode>
      reads this
    {
      Filter(nodes, IsMemory)
    }
  }

  /**
   * In a built mesh `get_node` finds a node for exactly the ids 0..X*Y-1,
   * and the node it finds carries that id, sits at the id's row-major
   * position and is a memory node exactly when the id is in the memory set.
   */
  lemma GetNodeFindsId(m: NoCMesh, nodeId: int)
    requires m.Built()
    ensures m.GetNode(nodeId).Some? <==> 0 <= nodeId < m.meshSizeX * m.meshSizeY
    ensures m.GetNode(nodeId).Some? ==>
              && m.meshSizeX > 0
              && m.GetNode(nodeId).value.nodeId == nodeId
              && m.GetNode(nodeId).value.pos == CoordOf(m.meshSizeX, nodeId)
              && (m.GetNode(nodeId).value.isMemoryNode <==> nodeId in m.memoryNodes)
  {
  }

  /**
   * Compute and memory nodes partition the nodes of a mesh, and a built mesh
   * has one memory node per id of the memory set below X*Y.
   */
  lemma NodePartition(m: NoCMesh)
    requires m.Built()
    ensures |m.GetComputeNodes()| + |m.GetMemoryNodes()| == |m.nodes| == m.meshSizeX * m.meshSizeY
    ensures multiset(m.GetComputeNodes()) + multiset(m.GetMemoryNodes()) == multiset(m.nodes)
    ensures |m.GetMemoryNodes()| == |IdsBelow(m.memoryNodes, m.meshSizeX * m.meshSizeY)|
  {
    FilterPartition(m.nodes, IsMemory, IsCompute);
    FilterCountByIndex(m.nodes, IsMemory, m.memoryNodes);
  }

  /** With the default corners, a built mesh at least 2x2 has exactly four memory nodes. */
  lemma DefaultMeshHasFourMemoryNodes(m: NoCMesh)
    requires m.Built() && m.meshSizeX >= 2 && m.meshSizeY >= 2
    requires m.memoryNodes == DefaultMemoryNodes(m.meshSizeX, m.meshSizeY)
    ensures |m.GetMemoryNodes()| == 4 && |m.GetComputeNodes()| == m.meshSizeX * m.meshSizeY - 4
  {
    NodePartition(m);
    DefaultIdsBelow(m.meshSizeX, m.meshSizeY);
    DefaultMemoryCount(m.meshSizeX, m.meshSizeY);
  }

  /**
   * A built mesh reports (X-1)*Y + X*(Y-1) links, one per pair of
   * horizontally or vertically adjacent routers.
   */
  lemma MeshLinkCount(m: NoCMesh)
    requires m.Built() && m.meshSizeX > 0 && m.meshSizeY > 0
    ensures |m.links| == (m.meshSizeX - 1) * m.meshSizeY + m.meshSizeX * (m.meshSizeY - 1)
    ensures forall l :: l in m.links ==> MeshLink(m.meshSizeX, m.meshSizeY, l)
  {
    AllLinksCount(m.meshSizeX, m.meshSizeY);
    AllLinksShape(m.meshSizeX, m.meshSizeY);
  }

  function NodeIdOf(n: NoCNode): int
  {
    n.nodeId
  }

  /** In a built mesh the memory nodes are listed in ascending id. */
  lemma MemoryNodesAscending(m: NoCMesh, a: nat, b: nat)
    requires m.Built() && a < b < |m.GetMemoryNodes()|
    ensures m.GetMemoryNodes()[a].nodeId < m.GetMemoryNodes()[b].nodeId
  {
    forall i, j | 0 <= i < j < |m.nodes|
      ensures NodeIdOf(m.nodes[i]) < NodeIdOf(m.nodes[j])
    {
      assert m.CreatedAs(m.nodes[i], i) && m.CreatedAs(m.nodes[j], j);
    }
    FilterIncreasing(m.nodes, IsMemory, NodeIdOf);
    assert NodeIdOf(m.GetMemoryNodes()[a]) < NodeIdOf(m.GetMemoryNodes()[b]);
  }

  /**
   * In a built mesh the ranges the mapping gave the memory nodes are
   * disjoint, follow one another from address 0 and stay inside the
   * 512 MiB shared space.
   */
  lemma MemoryMapLayout(m: NoCMesh, a: nat, b: nat)
    requires m.Built() && a < b < |m.GetMemoryNodes()| <= SharedMemory
    ensures var mem := m.GetMemoryNodes();
            && mem[0].memRange == Some(AddrRange(0, SharedMemory / |mem| - 1))
            && mem[a].memRange.value.end < mem[b].memRange.value.start
            && mem[a + 1].memRange.value.start == mem[a].memRange.value.end + 1
            && 0 <= mem[a].memRange.value.start && mem[b].memRange.value.end < SharedMemory
  {
    var k := |m.GetMemoryNodes()|;
    RangeCuts(a, b, k);
  }

  /**
   * Each memory node of a built mesh, a single one included, holds the
   * a-th of the equal ranges: it has `512 MiB // k` addresses, starts at a
   * multiple of that size and lies inside the shared space; a lone memory
   * node holds the whole space.
   */
  lemma MemoryRangeAt(m: NoCMesh, a: nat)
    requires m.Built() && a < |m.GetMemoryNodes()| <= SharedMemory
    ensures var mem := m.GetMemoryNodes();
            var size := SharedMemory / |mem|;
            && mem[a].memRange == Some(AddrRange(a * size, a * size + size - 1))
            && 0 <= mem[a].memRange.value.start <= mem[a].memRange.value.end < SharedMemory
            && (|mem| == 1 ==> mem[a].memRange == Some(AddrRange(0, SharedMemory - 1)))
  {
    RangeLayout(a, |m.GetMemoryNodes()|);
  }

  lemma RangeCuts(a: nat, b: nat, k: nat)
    requires a < b < k <= SharedMemory
    ensures var mpn := SharedMemory / k;
            && RangeOf(0, mpn) == AddrRange(0, mpn - 1)
            && RangeOf(a, mpn).end < RangeOf(b, mpn).start
            && RangeOf(a + 1, mpn).start == RangeOf(a, mpn).end + 1
            && 0 <= RangeOf(a, mpn).start && RangeOf(b, mpn).end < SharedMemory
  {
    var mpn := SharedMemory / k;
    assert mpn > 0;
    RangesDisjoint(a, b, mpn);
    RangeLayout(a, k);
    RangeLayout(b, k);
  }
}
