/**
 * The routing decisions of the logical simulator: dimension-order (XY)
 * routing on a mesh and shortest-wrap routing on a torus, together with the
 * distance each decision shrinks by one hop.
 */
module Routing {
  import opened Wrappers
  import opened Grid

  /**
   * Dimension-order routing: correct x first (EAST/WEST), then y
   * (SOUTH/NORTH); LOCAL once the packet is at its destination.  The three
   * router classes of the source share this rule.
   */
  function XYRoute(pos: Coord, dest: Coord): (r: Direction)
    ensures r == Local <==> pos == dest
    ensures r == East <==> dest.x > pos.x
    ensures r == West <==> dest.x < pos.x
    ensures r == South <==> dest.x == pos.x && dest.y > pos.y
    ensures r == North <==> dest.x == pos.x && dest.y < pos.y
  {
    if dest == pos then Local
    else if dest.x > pos.x then East
    else if dest.x < pos.x then West
    else if dest.y > pos.y then South
    else if dest.y < pos.y then North
    else Local
  }

  /**
   * Torus routing along one ring of size n: go the direct way unless the
   * wrap-around way is strictly shorter (ties go the direct way).  Returns
   * `up` for increasing coordinates and `down` for decreasing ones.
   */
  function RingChoice(n: nat, here: nat, there: nat, up: Direction, down: Direction): Direction
  {
    var direct := Abs(there - here);
    var wrap := n - direct;
    if direct <= wrap then (if there > here then up else down)
    else (if there > here then down else up)
  }

  /** Shortest-wrap torus routing, x dimension first. */
  function TorusRoute(X: nat, Y: nat, pos: Coord, dest: Coord): (r: Direction)
    ensures r == Local <==> pos == dest
    ensures r in {East, West} <==> dest.x != pos.x
  {
    if dest == pos then Local
    else if dest.x != pos.x then RingChoice(X, pos.x, dest.x, East, West)
    else if dest.y != pos.y then RingChoice(Y, pos.y, dest.y, South, North)
    else Local
  }

  /**
   * The way the torus router goes: a y move exactly once x agrees, and in
   * each dimension the increasing way (EAST, SOUTH) exactly when it is the
   * direct way and at most half the ring long, or the wrap-around way and
   * shorter than half; a tie goes the direct way.
   */
  lemma TorusRouteDirection(X: nat, Y: nat, pos: Coord, dest: Coord)
    ensures var r := TorusRoute(X, Y, pos, dest);
            && (r in {South, North} <==> dest.x == pos.x && dest.y != pos.y)
            && (dest.x != pos.x ==> (r == East <==> ((2 * Abs(dest.x - pos.x) <= X) == (dest.x > pos.x))))
            && (dest.x == pos.x && dest.y != pos.y ==> (r == South <==> ((2 * Abs(dest.y - pos.y) <= Y) == (dest.y > pos.y))))
  {
  }

  /** The topology-dispatching router: XY on a mesh, shortest wrap on a torus. */
  function Route(cfg: TopoConfig, pos: Coord, dest: Coord): (r: Direction)
    ensures r == Local <==> pos == dest
  {
    match cfg.topologyType
    case Mesh => XYRoute(pos, dest)
    case Torus => TorusRoute(cfg.meshSizeX, cfg.meshSizeY, pos, dest)
  }

  // ---------------------------------------------------------------------
  // Distances
  // ---------------------------------------------------------------------

  /** Hops between two points of a ring of size n going the shorter way. */
  function RingDist(n: nat, a: nat, b: nat): int
  {
    Min(Abs(a - b), n - Abs(a - b))
  }

  /** Manhattan distance on a mesh, shortest-wrap distance on a torus. */
  function Dist(t: TopologyType, X: nat, Y: nat, a: Coord, b: Coord): int
  {
    match t
    case Mesh => Abs(a.x - b.x) + Abs(a.y - b.y)
    case Torus => RingDist(X, a.x, b.x) + RingDist(Y, a.y, b.y)
  }

  lemma DistNonNegative(t: TopologyType, X: nat, Y: nat, a: Coord, b: Coord)
    requires InGrid(X, Y, a) && InGrid(X, Y, b)
    ensures Dist(t, X, Y, a, b) >= 0
    ensures Dist(t, X, Y, a, b) == 0 <==> a == b
  {
  }

  /** One hop towards `there` along a ring shrinks the ring distance by one. */
  lemma {:induction false} RingStep(n: nat, here: nat, there: nat, up: Direction, down: Direction)
    requires here < n && there < n && here != there && up != down
    ensures var next := if RingChoice(n, here, there, up, down) == up then (if here < n - 1 then here + 1 else 0)
                        else (if here > 0 then here - 1 else n - 1);
            RingDist(n, next, there) + 1 == RingDist(n, here, there)
  {
  }

  /** Configuration whose router and wiring agree and whose grid has the stated size. */
  predicate Consistent(cfg: TopoConfig, t: TopologyType, X: nat, Y: nat)
  {
    cfg.topologyType == t && cfg.meshSizeX == X && cfg.meshSizeY == Y
  }

  /**
   * Every routing decision away from the destination leads to an existing
   * neighbour that is one hop closer: on a mesh XY routing never points off
   * the grid, and on a torus the chosen wrap way is the shorter one.
   */
  lemma {:induction false} RouteProgress(cfg: TopoConfig, t: TopologyType, X: nat, Y: nat, pos: Coord, dest: Coord)
    requires Consistent(cfg, t, X, Y)
    requires InGrid(X, Y, pos) && InGrid(X, Y, dest) && pos != dest
    ensures Route(cfg, pos, dest) != Local
    ensures Neighbor(t, X, Y, pos, Route(cfg, pos, dest)).Some?
    ensures InGrid(X, Y, Neighbor(t, X, Y, pos, Route(cfg, pos, dest)).value)
    ensures Dist(t, X, Y, Neighbor(t, X, Y, pos, Route(cfg, pos, dest)).value, dest) + 1 == Dist(t, X, Y, pos, dest)
  {
    var d := Route(cfg, pos, dest);
    NeighborInGrid(t, X, Y, pos, d);
    if t == Torus {
      if dest.x != pos.x {
        RingStep(X, pos.x, dest.x, East, West);
      } else {
        RingStep(Y, pos.y, dest.y, South, North);
      }
    }
  }

  // ---------------------------------------------------------------------
  // Following the routing decisions hop by hop
  // ---------------------------------------------------------------------

  /** Position of a packet after k routing decisions, each taken to the chosen neighbour. */
  function Walk(cfg: TopoConfig, t: TopologyType, X: nat, Y: nat, pos: Coord, dest: Coord, k: nat): (r: Coord)
    requires Consistent(cfg, t, X, Y)
    requires InGrid(X, Y, pos) && InGrid(X, Y, dest)
    ensures InGrid(X, Y, r)
    decreases k
  {
    if k == 0 || pos == dest then pos
    else
      RouteProgress(cfg, t, X, Y, pos, dest);
      Walk(cfg, t, X, Y, Neighbor(t, X, Y, pos, Route(cfg, pos, dest)).value, dest, k - 1)
  }

  /** After k hops the remaining distance is the initial one minus k, never below zero. */
  lemma {:induction false} WalkDistance(cfg: TopoConfig, t: TopologyType, X: nat, Y: nat, pos: Coord, dest: Coord, k: nat)
    requires Consistent(cfg, t, X, Y)
    requires InGrid(X, Y, pos) && InGrid(X, Y, dest)
    ensures var d0 := Dist(t, X, Y, pos, dest);
            Dist(t, X, Y, Walk(cfg, t, X, Y, pos, dest, k), dest) == if k <= d0 then d0 - k else 0
    decreases k
  {
    DistNonNegative(t, X, Y, pos, dest);
    if k == 0 || pos == dest {
    } else {
      RouteProgress(cfg, t, X, Y, pos, dest);
      WalkDistance(cfg, t, X, Y, Neighbor(t, X, Y, pos, Route(cfg, pos, dest)).value, dest, k - 1);
    }
  }

  /**
   * A packet arrives after exactly the distance in hops: the Manhattan
   * distance on a mesh, the sum of the shorter ring distances on a torus.
   */
  lemma ArrivesAfterDistance(cfg: TopoConfig, t: TopologyType, X: nat, Y: nat, pos: Coord, dest: Coord, k: nat)
    requires Consistent(cfg, t, X, Y)
    requires InGrid(X, Y, pos) && InGrid(X, Y, dest)
    ensures Walk(cfg, t, X, Y, pos, dest, k) == dest <==> k >= Dist(t, X, Y, pos, dest)
  {
    WalkDistance(cfg, t, X, Y, pos, dest, k);
    DistNonNegative(t, X, Y, Walk(cfg, t, X, Y, pos, dest, k), dest);
  }

  /** Once a packet moves in y (NORTH or SOUTH) it never moves in x again: x hops all come first. */
  lemma {:induction false} XBeforeY(cfg: TopoConfig, t: TopologyType, X: nat, Y: nat, pos: Coord, dest: Coord, k: nat)
    requires Consistent(cfg, t, X, Y)
    requires InGrid(X, Y, pos) && InGrid(X, Y, dest)
    requires Route(cfg, pos, dest) in {North, South, Local}
    ensures Route(cfg, Walk(cfg, t, X, Y, pos, dest, k), dest) in {North, South, Local}
    ensures Walk(cfg, t, X, Y, pos, dest, k).x == pos.x
    decreases k
  {
    if k == 0 || pos == dest {
    } else {
      RouteProgress(cfg, t, X, Y, pos, dest);
      XBeforeY(cfg, t, X, Y, Neighbor(t, X, Y, pos, Route(cfg, pos, dest)).value, dest, k - 1);
    }
  }
}
