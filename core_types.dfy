/**
 * Classification of a grid position into the four core roles used by the
 * simulator and by the SST system builders: the master core at the top-left
 * corner, the memory-controller core at the bottom-right corner, I/O cores on
 * the remaining border and compute cores inside.
 */
module CoreTypes {
  import opened Grid

  datatype CoreClass = MasterCore | MemoryControllerCore | IoCore | ComputeCore

  /** Role of the node at `c` on an X-by-Y grid; the corner tests come before the border test. */
  function PositionClass(X: int, Y: int, c: Coord): CoreClass
  {
    if c.x == 0 && c.y == 0 then MasterCore
    else if c.x == X - 1 && c.y == Y - 1 then MemoryControllerCore
    else if c.x == 0 || c.x == X - 1 || c.y == 0 || c.y == Y - 1 then IoCore
    else ComputeCore
  }

  predicate OnBorder(X: int, Y: int, c: Coord)
  {
    c.x == 0 || c.x == X - 1 || c.y == 0 || c.y == Y - 1
  }

  /**
   * On a grid of at least 2x2 the roles partition the positions: exactly one
   * master, exactly one memory controller, I/O cores on the rest of the
   * border and compute cores strictly inside.
   */
  lemma PositionClassPartition(X: nat, Y: nat, c: Coord)
    requires X >= 2 && Y >= 2 && InGrid(X, Y, c)
    ensures PositionClass(X, Y, c) == MasterCore <==> c == Coord(0, 0)
    ensures PositionClass(X, Y, c) == MemoryControllerCore <==> c == Coord(X - 1, Y - 1)
    ensures PositionClass(X, Y, c) == IoCore <==> OnBorder(X, Y, c) && c != Coord(0, 0) && c != Coord(X - 1, Y - 1)
    ensures PositionClass(X, Y, c) == ComputeCore <==> 0 < c.x < X - 1 && 0 < c.y < Y - 1
  {
  }

  /** Generator and human-readable description the simulator attaches to a node. */
  datatype Workload = Workload(generator: string, description: string)

  /** The simulator's workload for each role. */
  function HybridWorkload(k: CoreClass): Workload
  {
    match k
    case MasterCore => Workload("miranda.STREAMBenchGenerator", "主控核心 - STREAM基准测试")
    case MemoryControllerCore => Workload("miranda.RandomGenerator", "内存控制器 - 随机访问模式")
    case IoCore => Workload("miranda.SingleStreamGenerator", "I/O核心 - 单流访问模式")
    case ComputeCore => Workload("miranda.GUPSGenerator", "计算核心 - GUPS基准测试")
  }

  /** The SST builders classify a node id by converting it back to a row-major position. */
  function DetermineCoreType(X: nat, Y: nat, id: nat): CoreClass
    requires X > 0
  {
    PositionClass(X, Y, Coord(id % X, id / X))
  }

  /**
   * The id-based classifier of the SST builders and the position-based
   * classifier of the simulator agree on every node of the grid.
   */
  lemma ClassifiersAgree(X: nat, Y: nat, c: Coord)
    requires InGrid(X, Y, c)
    ensures DetermineCoreType(X, Y, IdOf(X, c)) == PositionClass(X, Y, c)
  {
    IdOfBounds(X, Y, c);
  }

  /**
   * On the 4x4 system the classifier yields the I/O and compute core id
   * tables the analysis tool hard-codes.
   */
  lemma AnalysisTablesAgree(id: nat)
    requires id < 16
    ensures DetermineCoreType(4, 4, id) == MasterCore <==> id == 0
    ensures DetermineCoreType(4, 4, id) == MemoryControllerCore <==> id == 15
    ensures DetermineCoreType(4, 4, id) == IoCore <==> id in {1, 2, 3, 4, 7, 8, 11, 12, 13, 14}
    ensures DetermineCoreType(4, 4, id) == ComputeCore <==> id in {5, 6, 9, 10}
  {
  }
}
