/**
 * Directions, topology kinds, grid coordinates and the neighbour relation of
 * a width-X, height-Y mesh or torus.  Node ids are row-major: the node at
 * (x, y) has id y * X + x.  NORTH decreases y, SOUTH increases y, EAST
 * increases x and WEST decreases x.
 */
module Grid {
  import opened Wrappers

  /** The five routing directions, in the order the source declares them. */
  datatype Direction = North | South | East | West | Local

  /** Declaration order of the directions; dictionaries keyed by direction iterate in this order. */
  const AllDirections: seq<Direction> := [North, South, East, West, Local]

  /** A record with one entry per direction, standing for a dictionary keyed by direction. */
  datatype PerDirection<T> = PerDirection(north: T, south: T, east: T, west: T, local: T)
  {
    function Get(d: Direction): T
    {
      match d
      case North => north
      case South => south
      case East => east
      case West => west
      case Local => local
    }

    function Set(d: Direction, v: T): (r: PerDirection<T>)
      ensures r.Get(d) == v
      ensures forall e :: e != d ==> r.Get(e) == Get(e)
    {
      match d
      case North => this.(north := v)
      case South => this.(south := v)
      case East => this.(east := v)
      case West => this.(west := v)
      case Local => this.(local := v)
    }
  }

  function Uniform<T>(v: T): PerDirection<T>
  {
    PerDirection(v, v, v, v, v)
  }

  datatype TopologyType = Mesh | Torus

  /** The topology configuration record; `totalNodes` is carried but never consulted by the simulator. */
  datatype TopoConfig = TopoConfig(topologyType: TopologyType, totalNodes: int, meshSizeX: nat, meshSizeY: nat)

  /** The default configuration: a 4x4 grid of 16 nodes. */
  function DefaultTopoConfig(t: TopologyType): TopoConfig
  {
    TopoConfig(t, 16, 4, 4)
  }

  datatype Coord = Coord(x: nat, y: nat)

  predicate InGrid(X: nat, Y: nat, c: Coord)
  {
    c.x < X && c.y < Y
  }

  /** Row-major node id of a position. */
  function IdOf(X: nat, c: Coord): nat
  {
    c.y * X + c.x
  }

  /** Position of a row-major node id. */
  function CoordOf(X: nat, id: nat): Coord
    requires X > 0
  {
    Coord(id % X, id / X)
  }

  function Opposite(d: Direction): Direction
  {
    match d
    case North => South
    case South => North
    case East => West
    case West => East
    case Local => Local
  }

  // ---------------------------------------------------------------------
  // Arithmetic facts about row-major ids
  // ---------------------------------------------------------------------

  lemma MulMonotone(a: nat, b: nat, k: nat)
    requires a <= b
    ensures a * k <= b * k
  {
  }

  lemma DivModUnique(n: nat, X: nat, q: nat, r: nat)
    requires X > 0 && r < X && n == q * X + r
    ensures n / X == q && n % X == r
  {
    var q', r' := n / X, n % X;
    assert n == q' * X + r';
    if q' < q {
      MulMonotone(q' + 1, q, X);
      assert false;
    } else if q < q' {
      MulMonotone(q + 1, q', X);
      assert false;
    }
  }

  /** Distinct in-grid positions have distinct ids, and every id below X*Y is some position's id. */
  lemma {:induction false} IdOfBounds(X: nat, Y: nat, c: Coord)
    requires InGrid(X, Y, c)
    ensures IdOf(X, c) < X * Y
    ensures CoordOf(X, IdOf(X, c)) == c
  {
    MulMonotone(c.y + 1, Y, X);
    DivModUnique(IdOf(X, c), X, c.y, c.x);
  }

  lemma {:induction false} CoordOfBounds(X: nat, Y: nat, id: nat)
    requires X > 0 && id < X * Y
    ensures InGrid(X, Y, CoordOf(X, id))
    ensures IdOf(X, CoordOf(X, id)) == id
  {
    var c := CoordOf(X, id);
    if c.y >= Y {
      MulMonotone(Y, c.y, X);
      assert false;
    }
  }

  // ---------------------------------------------------------------------
  // The neighbour relation of the wired grid
  // ---------------------------------------------------------------------

  /**
   * The position reached by leaving `c` in direction `d`: on a mesh there is
   * none past the outward edge, on a torus the edge wraps to the opposite
   * edge.  LOCAL never has a neighbour.
   */
  function Neighbor(t: TopologyType, X: nat, Y: nat, c: Coord, d: Direction): Option<Coord>
    requires InGrid(X, Y, c)
  {
    match d
    case North =>
      if c.y > 0 then Some(Coord(c.x, c.y - 1))
      else if t == Torus then Some(Coord(c.x, Y - 1)) else None
    case South =>
      if c.y < Y - 1 then Some(Coord(c.x, c.y + 1))
      else if t == Torus then Some(Coord(c.x, 0)) else None
    case East =>
      if c.x < X - 1 then Some(Coord(c.x + 1, c.y))
      else if t == Torus then Some(Coord(0, c.y)) else None
    case West =>
      if c.x > 0 then Some(Coord(c.x - 1, c.y))
      else if t == Torus then Some(Coord(X - 1, c.y)) else None
    case Local => None
  }

  /** Outward edge of the grid in direction `d`. */
  predicate AtEdge(X: nat, Y: nat, c: Coord, d: Direction)
  {
    match d
    case North => c.y == 0
    case South => c.y == Y - 1
    case East => c.x == X - 1
    case West => c.x == 0
    case Local => true
  }

  /** A neighbour always lies inside the grid. */
  lemma NeighborInGrid(t: TopologyType, X: nat, Y: nat, c: Coord, d: Direction)
    requires InGrid(X, Y, c)
    ensures Neighbor(t, X, Y, c, d).Some? ==> InGrid(X, Y, Neighbor(t, X, Y, c, d).value)
  {
  }

  /** Mesh: a neighbour is missing exactly at the outward edge.  Torus: every direction but LOCAL has one. */
  lemma NeighborPresence(t: TopologyType, X: nat, Y: nat, c: Coord, d: Direction)
    requires InGrid(X, Y, c)
    ensures t == Mesh ==> (Neighbor(t, X, Y, c, d).None? <==> AtEdge(X, Y, c, d))
    ensures t == Torus ==> (Neighbor(t, X, Y, c, d).None? <==> d == Local)
  {
  }

  /** Links are symmetric: A's EAST is B iff B's WEST is A, and A's SOUTH is B iff B's NORTH is A. */
  lemma NeighborSymmetric(t: TopologyType, X: nat, Y: nat, a: Coord, b: Coord, d: Direction)
    requires InGrid(X, Y, a) && InGrid(X, Y, b) && d != Local
    ensures Neighbor(t, X, Y, a, d) == Some(b) <==> Neighbor(t, X, Y, b, Opposite(d)) == Some(a)
  {
  }
}
