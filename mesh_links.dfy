/**
 * The router-to-router links the SST system builders create for an X-by-Y
 * mesh: visiting the grid row by row (y outer, x inner), the node with
 * row-major id y*X + x gets an east link to id+1 (its port0 to the
 * neighbour's port1) unless it is in the last column, and a south link to
 * id+X (port2 to port3) unless it is in the last row.
 */
module MeshLinks {
  import opened Grid
  import opened StatNames

  /** One `sst.Link` between two routers: its name and the two (router id, port) ends. */
  datatype Link = Link(name: string, from: nat, fromPort: string, to: nat, toPort: string)

  function EastLink(X: nat, x: nat, y: nat): Link
  {
    Link("mesh_east_" + NatStr(x) + "_" + NatStr(y), y * X + x, "port0", y * X + x + 1, "port1")
  }

  function SouthLink(X: nat, x: nat, y: nat): Link
  {
    Link("mesh_south_" + NatStr(x) + "_" + NatStr(y), y * X + x, "port2", y * X + x + X, "port3")
  }

  /** The links created while visiting the node at (x, y). */
  function CellLinks(X: nat, Y: nat, x: nat, y: nat): seq<Link>
  {
    (if x + 1 < X then [EastLink(X, x, y)] else []) + (if y + 1 < Y then [SouthLink(X, x, y)] else [])
  }

  /** The links created by the first n visits of row y. */
  function RowLinks(X: nat, Y: nat, y: nat, n: nat): seq<Link>
  {
    if n == 0 then [] else RowLinks(X, Y, y, n - 1) + CellLinks(X, Y, n - 1, y)
  }

  /** The links created by the first m rows. */
  function GridLinks(X: nat, Y: nat, m: nat): seq<Link>
  {
    if m == 0 then [] else GridLinks(X, Y, m - 1) + RowLinks(X, Y, m - 1, X)
  }

  /** Every link of the mesh, in creation order. */
  function AllLinks(X: nat, Y: nat): seq<Link>
  {
    GridLinks(X, Y, Y)
  }

  /** A link joins horizontally adjacent routers (east port to west port) or vertically adjacent ones (south to north). */
  predicate MeshLink(X: nat, Y: nat, l: Link)
  {
    && l.from < X * Y && l.to < X * Y
    && ((l.fromPort == "port0" && l.toPort == "port1" && l.to == l.from + 1 && l.from % X + 1 < X)
        || (l.fromPort == "port2" && l.toPort == "port3" && l.to == l.from + X))
  }

  lemma CellLinksShape(X: nat, Y: nat, x: nat, y: nat)
    requires x < X && y < Y
    ensures forall l :: l in CellLinks(X, Y, x, y) ==> MeshLink(X, Y, l)
  {
    if x + 1 < X {
      EastLinkShape(X, Y, x, y);
    }
    if y + 1 < Y {
      SouthLinkShape(X, Y, x, y);
    }
  }

  lemma EastLinkShape(X: nat, Y: nat, x: nat, y: nat)
    requires x + 1 < X && y < Y
    ensures MeshLink(X, Y, EastLink(X, x, y))
  {
    DivModUnique(y * X + x, X, y, x);
    MulMonotone(y + 1, Y, X);
    assert (y + 1) * X == y * X + X;
  }

  lemma SouthLinkShape(X: nat, Y: nat, x: nat, y: nat)
    requires x < X && y + 1 < Y
    ensures MeshLink(X, Y, SouthLink(X, x, y))
  {
    MulMonotone(y + 2, Y, X);
    assert (y + 2) * X == y * X + X + X;
  }

  lemma {:induction false} RowLinksShape(X: nat, Y: nat, y: nat, n: nat)
    requires n <= X && y < Y
    ensures forall l :: l in RowLinks(X, Y, y, n) ==> MeshLink(X, Y, l)
  {
    if n > 0 {
      RowLinksShape(X, Y, y, n - 1);
      CellLinksShape(X, Y, n - 1, y);
    }
  }

  lemma {:induction false} GridLinksShape(X: nat, Y: nat, m: nat)
    requires m <= Y
    ensures forall l :: l in GridLinks(X, Y, m) ==> MeshLink(X, Y, l)
  {
    if m > 0 {
      GridLinksShape(X, Y, m - 1);
      RowLinksShape(X, Y, m - 1, X);
    }
  }

  /** Every link joins two routers of the grid that are neighbours along a row or a column. */
  lemma AllLinksShape(X: nat, Y: nat)
    ensures forall l :: l in AllLinks(X, Y) ==> MeshLink(X, Y, l)
  {
    GridLinksShape(X, Y, Y);
  }

  lemma {:induction false} RowLinksCount(X: nat, Y: nat, y: nat, n: nat)
    requires 0 < X && n <= X
    ensures |RowLinks(X, Y, y, n)| == (if n < X then n else X - 1) + (if y + 1 < Y then n else 0)
  {
    if n > 0 {
      RowLinksCount(X, Y, y, n - 1);
      assert |CellLinks(X, Y, n - 1, y)| == (if n < X then 1 else 0) + (if y + 1 < Y then 1 else 0);
    }
  }

  lemma {:induction false} GridLinksCount(X: nat, Y: nat, m: nat)
    requires 0 < X && 0 < Y && m <= Y
    ensures |GridLinks(X, Y, m)| == m * (X - 1) + (if m < Y then m else m - 1) * X
  {
    if m > 0 {
      GridLinksCount(X, Y, m - 1);
      RowLinksCount(X, Y, m - 1, X);
      var east, south := (m - 1) * (X - 1), (m - 1) * X;
      assert |GridLinks(X, Y, m - 1)| == east + south;
      assert m * (X - 1) == east + (X - 1) by { MulSucc(m - 1, X - 1); }
      assert m * X == south + X by { MulSucc(m - 1, X); }
    }
  }

  lemma MulSucc(a: nat, b: nat)
    ensures (a + 1) * b == a * b + b
  {
  }

  /** The builders report (X-1)*Y + X*(Y-1) links; an empty grid has none. */
  lemma AllLinksCount(X: nat, Y: nat)
    ensures |AllLinks(X, Y)| == if X == 0 || Y == 0 then 0 else (X - 1) * Y + X * (Y - 1)
  {
    if X == 0 {
      RowsEmpty(Y, Y);
    } else if Y > 0 {
      GridLinksCount(X, Y, Y);
    }
  }

  /** With no columns no row creates a link. */
  lemma {:induction false} RowsEmpty(Y: nat, m: nat)
    ensures GridLinks(0, Y, m) == []
  {
    if m > 0 {
      RowsEmpty(Y, m - 1);
    }
  }

  /**
   * `_build_mesh_network` / `_build_mesh_connections`: the links in creation
   * order and the counter the builders return.
   */
  method BuildMeshNetwork(X: nat, Y: nat) returns (links: seq<Link>, linkCount: nat)
    ensures links == AllLinks(X, Y)
    ensures linkCount == |links|
  {
    links := [];
    linkCount := 0;
    for y := 0 to Y
      invariant links == GridLinks(X, Y, y) && linkCount == |links|
    {
      var row, rowCount := BuildRowLinks(X, Y, y);
      links := links + row;
      linkCount := linkCount + rowCount;
    }
  }

  /** The inner loop over x of the builders: the links of row y and how many there are. */
  method BuildRowLinks(X: nat, Y: nat, y: nat) returns (row: seq<Link>, rowCount: nat)
    ensures row == RowLinks(X, Y, y, X)
    ensures rowCount == |row|
  {
    row := [];
    rowCount := 0;
    for x := 0 to X
      invariant row == RowLinks(X, Y, y, x) && rowCount == |row|
    {
      if x < X - 1 {
        row := row + [EastLink(X, x, y)];
        rowCount := rowCount + 1;
      }
      if y < Y - 1 {
        row := row + [SouthLink(X, x, y)];
        rowCount := rowCount + 1;
      }
    }
  }
}
