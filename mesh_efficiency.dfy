/**
 * `calculate_mesh_efficiency` of the CPU-system analysis tool: the sum of
 * Manhattan hop counts over every ordered pair of distinct nodes of the 4x4
 * mesh, and the number of such pairs.  The tool returns their quotient as a
 * float; the model returns the two integers it divides.
 */
module MeshEfficiency {
  import opened Wrappers
  import opened Grid
  import opened Routing

  /** Side of the analysed mesh and its node count. */
  const Side: nat := 4
  const Nodes: nat := Side * Side

  /** Hops between nodes i and j, from their row-major positions. */
  function Hops(i: nat, j: nat): nat
  {
    Abs(i % 4 - j % 4) + Abs(i / 4 - j / 4)
  }

  /** The hop count is the mesh distance between the two nodes' positions. */
  lemma HopsIsMeshDistance(i: nat, j: nat)
    ensures Hops(i, j) == Dist(Mesh, Side, Side, CoordOf(Side, i), CoordOf(Side, j))
    ensures Hops(i, j) == Hops(j, i)
    ensures Hops(i, j) == 0 <==> i % Side == j % Side && i / Side == j / Side
  {
  }

  /** Hops from node i to the nodes j < n other than i itself. */
  function RowHops(i: nat, n: nat): nat
  {
    if n == 0 then 0 else RowHops(i, n - 1) + (if i != n - 1 then Hops(i, n - 1) else 0)
  }

  /** Hops summed over the source nodes i < m and every destination j < Nodes, j != i. */
  function TotalHops(m: nat): nat
  {
    if m == 0 then 0 else TotalHops(m - 1) + RowHops(m - 1, Nodes)
  }

  /** Sum of the distances from a to the four coordinates 0..3 of one axis. */
  function AxisSum(a: int): nat
  {
    Abs(a) + Abs(a - 1) + Abs(a - 2) + Abs(a - 3)
  }

  /** The i != j guard only skips a zero term. */
  lemma RowHopsStep(i: nat, n: nat)
    ensures RowHops(i, n + 1) == RowHops(i, n) + Hops(i, n)
  {
  }

  lemma Step4(i: nat, n: nat)
    ensures RowHops(i, n + 4) == RowHops(i, n) + Hops(i, n) + Hops(i, n + 1) + Hops(i, n + 2) + Hops(i, n + 3)
  {
    RowHopsStep(i, n);
    RowHopsStep(i, n + 1);
    RowHopsStep(i, n + 2);
    RowHopsStep(i, n + 3);
  }

  /** Node j = 4r + c of the mesh sits in column c of row r. */
  lemma HopsTo(i: nat, r: nat, c: nat, j: nat)
    requires c < 4 && j == 4 * r + c
    ensures Hops(i, j) == Abs(i % 4 - c) + Abs(i / 4 - r)
  {
    DivModUnique(j, 4, r, c);
  }

  lemma AddAxis(h0: int, h1: int, h2: int, h3: int, a: int, d: int)
    requires h0 == Abs(a) + Abs(d) && h1 == Abs(a - 1) + Abs(d) && h2 == Abs(a - 2) + Abs(d) && h3 == Abs(a - 3) + Abs(d)
    ensures h0 + h1 + h2 + h3 == AxisSum(a) + 4 * Abs(d)
  {
  }

  /** The four nodes n..n+3 of mesh row r add the x-distances of i's column and four times its y-distance to r. */
  lemma BlockHops(i: nat, r: nat, n: nat)
    requires n == 4 * r
    ensures Hops(i, n) + Hops(i, n + 1) + Hops(i, n + 2) + Hops(i, n + 3) == AxisSum(i % 4) + 4 * Abs(i / 4 - r)
  {
    HopsTo(i, r, 0, n);
    HopsTo(i, r, 1, n + 1);
    HopsTo(i, r, 2, n + 2);
    HopsTo(i, r, 3, n + 3);
    AddAxis(Hops(i, n), Hops(i, n + 1), Hops(i, n + 2), Hops(i, n + 3), i % 4, i / 4 - r);
  }

  lemma RowBlock(i: nat, r: nat, n: nat, m: nat)
    requires n == 4 * r && m == n + 4
    ensures RowHops(i, m) == RowHops(i, n) + AxisSum(i % 4) + 4 * Abs(i / 4 - r)
  {
    Step4(i, n);
    BlockHops(i, r, n);
  }

  lemma AddRows(r0: int, r1: int, r2: int, r3: int, r4: int, s: int, d0: int, d1: int, d2: int, d3: int)
    requires r0 == 0 && r1 == r0 + s + 4 * d0 && r2 == r1 + s + 4 * d1 && r3 == r2 + s + 4 * d2 && r4 == r3 + s + 4 * d3
    ensures r4 == 4 * (s + d0 + d1 + d2 + d3)
  {
  }

  /** Node i's hops to every other node: four times the axis sums of its column and its row. */
  lemma RowHopsClosed(i: nat)
    ensures RowHops(i, Nodes) == 4 * (AxisSum(i % 4) + AxisSum(i / 4))
  {
    RowBlock(i, 0, 0, 4);
    RowBlock(i, 1, 4, 8);
    RowBlock(i, 2, 8, 12);
    RowBlock(i, 3, 12, 16);
    var b := i / 4;
    AddRows(RowHops(i, 0), RowHops(i, 4), RowHops(i, 8), RowHops(i, 12), RowHops(i, 16),
      AxisSum(i % 4), Abs(b), Abs(b - 1), Abs(b - 2), Abs(b - 3));
  }

  lemma TotalStep(m: nat)
    ensures TotalHops(m + 1) == TotalHops(m) + RowHops(m, Nodes)
  {
  }

  /** Source node i = 4r + c: its row sum depends on its column c and its row r only. */
  lemma SourceRow(r: nat, c: nat, i: nat)
    requires c < 4 && i == 4 * r + c
    ensures RowHops(i, Nodes) == 4 * (AxisSum(c) + AxisSum(r))
  {
    DivModUnique(i, 4, r, c);
    RowHopsClosed(i);
  }

  /** The four sources n..n+3 of mesh row r add 80 for their columns and 16 times r's axis sum. */
  lemma TotalBlock(r: nat, n: nat, m: nat)
    requires n == 4 * r && m == n + 4
    ensures TotalHops(m) == TotalHops(n) + 80 + 16 * AxisSum(r)
  {
    TotalStep(n);
    TotalStep(n + 1);
    TotalStep(n + 2);
    TotalStep(n + 3);
    SourceRow(r, 0, n);
    SourceRow(r, 1, n + 1);
    SourceRow(r, 2, n + 2);
    SourceRow(r, 3, n + 3);
    assert AxisSum(0) == 6 && AxisSum(1) == 4 && AxisSum(2) == 4 && AxisSum(3) == 6;
  }

  /** Axis sums of the first r coordinates. */
  function AxisPrefix(r: nat): nat
  {
    if r == 0 then 0 else AxisPrefix(r - 1) + AxisSum(r - 1)
  }

  lemma AxisPrefixValue()
    ensures AxisPrefix(Side) == 20
  {
    assert AxisSum(0) == 6 && AxisSum(1) == 4 && AxisSum(2) == 4 && AxisSum(3) == 6;
  }

  /** The sources of the first r mesh rows. */
  lemma {:induction false} TotalPrefix(r: nat)
    ensures TotalHops(4 * r) == 80 * r + 16 * AxisPrefix(r)
  {
    if r > 0 {
      TotalPrefix(r - 1);
      TotalBlock(r - 1, 4 * (r - 1), 4 * r);
    }
  }

  lemma TotalPrefixValue(r: nat, n: nat, v: nat)
    requires n == 4 * r && v == 80 * r + 16 * AxisPrefix(r)
    ensures TotalHops(n) == v
  {
    TotalPrefix(r);
  }

  /** On the 4x4 mesh the hops over all ordered pairs of distinct nodes add up to 640. */
  lemma TotalHopsValue()
    ensures TotalHops(Nodes) == 640
  {
    AxisPrefixValue();
    TotalPrefixValue(Side, Nodes, 640);
  }

  /** The inner loop of `calculate_mesh_efficiency`: the hops and pairs from source i. */
  method RowPass(i: nat) returns (hops: nat, pairs: nat)
    requires i < Nodes
    ensures hops == RowHops(i, Nodes) && pairs == Nodes - 1
  {
    hops, pairs := 0, 0;
    for j := 0 to 16
      invariant hops == RowHops(i, j)
      invariant pairs == (if i < j then j - 1 else j)
    {
      RowHopsStep(i, j);
      if i != j {
        var x1, y1 := i % 4, i / 4;
        var x2, y2 := j % 4, j / 4;
        hops := hops + Abs(x1 - x2) + Abs(y1 - y2);
        pairs := pairs + 1;
      }
    }
  }

  /** The outer loop of `calculate_mesh_efficiency`: hops and pairs over every source. */
  method PairSums() returns (totalHops: nat, totalPairs: nat)
    ensures totalHops == TotalHops(Nodes) && totalPairs == Nodes * (Nodes - 1)
  {
    totalHops, totalPairs := 0, 0;
    for i := 0 to 16
      invariant totalHops == TotalHops(i) && totalPairs == i * 15
    {
      var hops, pairs := RowPass(i);
      totalHops := totalHops + hops;
      totalPairs := totalPairs + pairs;
      TotalStep(i);
    }
  }

  /**
   * `calculate_mesh_efficiency`: 240 ordered pairs and 640 hops, an average
   * of 8/3 hops per pair (the tool's float quotient, taken only when the
   * pair count is positive).
   */
  method CalculateMeshEfficiency() returns (totalHops: nat, totalPairs: nat)
    ensures totalPairs == 240 && totalHops == 640
    ensures totalHops * 3 == totalPairs * 8
  {
    totalHops, totalPairs := PairSums();
    TotalHopsValue();
  }
}
