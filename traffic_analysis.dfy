/**
 * The mesh's traffic analyses: the node-to-node traffic matrix and the
 * per-link utilisation built from each node's per-direction tallies, and
 * the hotspot and congestion rankings.  All of them read the node table in
 * its visit order and change nothing.
 */
module TrafficAnalysis {
  import opened Wrappers
  import opened Grid
  import opened MirandaNode
  import NodeSets

  // ---------------------------------------------------------------------
  // Traffic matrix
  // ---------------------------------------------------------------------

  /**
   * The position the matrix credits a direction's traffic to: the adjacent
   * position inside the mesh bounds (whatever the topology), or the node
   * itself for LOCAL.
   */
  function MatrixNeighbor(X: nat, Y: nat, pos: Coord, d: Direction): Option<Coord>
  {
    match d
    case North => if pos.y > 0 then Some(Coord(pos.x, pos.y - 1)) else None
    case South => if pos.y < Y - 1 then Some(Coord(pos.x, pos.y + 1)) else None
    case East => if pos.x < X - 1 then Some(Coord(pos.x + 1, pos.y)) else None
    case West => if pos.x > 0 then Some(Coord(pos.x - 1, pos.y)) else None
    case Local => Some(pos)
  }

  /** The matrix uses the mesh neighbour relation for the four link directions. */
  lemma MatrixNeighborIsMeshNeighbor(X: nat, Y: nat, pos: Coord, d: Direction)
    requires InGrid(X, Y, pos)
    ensures d != Local ==> MatrixNeighbor(X, Y, pos, d) == Neighbor(Mesh, X, Y, pos, d)
    ensures d == Local ==> MatrixNeighbor(X, Y, pos, d) == Some(pos)
  {
  }

  /** On a torus the wrap-around links exist, but their traffic has no place in the matrix. */
  lemma WrapTrafficOmitted(X: nat, Y: nat, pos: Coord, d: Direction)
    requires InGrid(X, Y, pos) && d != Local && AtEdge(X, Y, pos, d)
    ensures Neighbor(Torus, X, Y, pos, d).Some?
    ensures MatrixNeighbor(X, Y, pos, d) == None
  {
  }

  /** Different directions lead to different matrix positions. */
  lemma MatrixNeighborDistinct(X: nat, Y: nat, pos: Coord, d1: Direction, d2: Direction)
    requires d1 != d2 && MatrixNeighbor(X, Y, pos, d1).Some? && MatrixNeighbor(X, Y, pos, d2).Some?
    ensures MatrixNeighbor(X, Y, pos, d1).value != MatrixNeighbor(X, Y, pos, d2).value
  {
  }

  /** Whether the direction's traffic is entered in the matrix: some packets went that way and it has a matrix position. */
  predicate Entered(n: Node, X: nat, Y: nat, d: Direction)
  {
    n.trafficByDirection.Get(d).packets > 0 && MatrixNeighbor(X, Y, n.pos, d).Some?
  }

  /** A node's matrix row after the first k directions. */
  function RowAfter(n: Node, X: nat, Y: nat, k: nat): map<Coord, Traffic>
    requires k <= |AllDirections|
  {
    if k == 0 then map[]
    else
      var d := AllDirections[k - 1];
      if Entered(n, X, Y, d) then RowAfter(n, X, Y, k - 1)[MatrixNeighbor(X, Y, n.pos, d).value := n.trafficByDirection.Get(d)]
      else RowAfter(n, X, Y, k - 1)
  }

  /** A node's matrix row: destination position to the tally of the direction leading there. */
  function NodeRow(n: Node, X: nat, Y: nat): map<Coord, Traffic>
  {
    RowAfter(n, X, Y, |AllDirections|)
  }

  lemma {:induction false} RowAfterContents(n: Node, X: nat, Y: nat, k: nat, q: Coord)
    requires k <= |AllDirections|
    ensures q in RowAfter(n, X, Y, k) <==>
              exists j :: 0 <= j < k && Entered(n, X, Y, AllDirections[j]) && MatrixNeighbor(X, Y, n.pos, AllDirections[j]).value == q
    ensures forall j :: 0 <= j < k && Entered(n, X, Y, AllDirections[j]) && MatrixNeighbor(X, Y, n.pos, AllDirections[j]).value == q ==>
              RowAfter(n, X, Y, k)[q] == n.trafficByDirection.Get(AllDirections[j])
  {
    if k > 0 {
      RowAfterContents(n, X, Y, k - 1, q);
      forall j | 0 <= j < k - 1 && Entered(n, X, Y, AllDirections[j]) && Entered(n, X, Y, AllDirections[k - 1])
        ensures MatrixNeighbor(X, Y, n.pos, AllDirections[j]).value != MatrixNeighbor(X, Y, n.pos, AllDirections[k - 1]).value
      {
        MatrixNeighborDistinct(X, Y, n.pos, AllDirections[j], AllDirections[k - 1]);
      }
    }
  }

  /**
   * A node's row holds exactly the positions some direction with traffic
   * leads to inside the mesh bounds, each with that direction's tally.
   */
  lemma NodeRowContents(n: Node, X: nat, Y: nat, d: Direction, q: Coord)
    ensures q in NodeRow(n, X, Y) <==>
              exists e :: Entered(n, X, Y, e) && MatrixNeighbor(X, Y, n.pos, e).value == q
    ensures Entered(n, X, Y, d) ==>
              MatrixNeighbor(X, Y, n.pos, d).value in NodeRow(n, X, Y) &&
              NodeRow(n, X, Y)[MatrixNeighbor(X, Y, n.pos, d).value] == n.trafficByDirection.Get(d)
  {
    RowAfterContents(n, X, Y, |AllDirections|, q);
    if Entered(n, X, Y, d) {
      RowAfterContents(n, X, Y, |AllDirections|, MatrixNeighbor(X, Y, n.pos, d).value);
    }
    assert d == AllDirections[match d case North => 0 case South => 1 case East => 2 case West => 3 case Local => 4];
    if q in NodeRow(n, X, Y) {
      var j :| 0 <= j < |AllDirections| && Entered(n, X, Y, AllDirections[j]) && MatrixNeighbor(X, Y, n.pos, AllDirections[j]).value == q;
      assert Entered(n, X, Y, AllDirections[j]);
    }
    if exists e :: Entered(n, X, Y, e) && MatrixNeighbor(X, Y, n.pos, e).value == q {
      var e :| Entered(n, X, Y, e) && MatrixNeighbor(X, Y, n.pos, e).value == q;
      assert e == AllDirections[match e case North => 0 case South => 1 case East => 2 case West => 3 case Local => 4];
    }
  }

  /** The matrix after the nodes order[0], ..., order[k-1]: each node's row under its position. */
  function MatrixAfter(ns: seq<Node>, order: seq<nat>, X: nat, Y: nat, k: nat): map<Coord, map<Coord, Traffic>>
    requires k <= |order| && forall j :: 0 <= j < |order| ==> order[j] < |ns|
  {
    if k == 0 then map[]
    else MatrixAfter(ns, order, X, Y, k - 1)[ns[order[k - 1]].pos := NodeRow(ns[order[k - 1]], X, Y)]
  }

  lemma {:induction false} MatrixAfterContents(ns: seq<Node>, order: seq<nat>, X: nat, Y: nat, k: nat, c: Coord)
    requires k <= |order| && forall j :: 0 <= j < |order| ==> order[j] < |ns|
    requires forall j1, j2 :: 0 <= j1 < |ns| && 0 <= j2 < |ns| && ns[j1].pos == ns[j2].pos ==> j1 == j2
    ensures c in MatrixAfter(ns, order, X, Y, k) <==> exists j :: 0 <= j < k && ns[order[j]].pos == c
    ensures forall j :: 0 <= j < k && ns[order[j]].pos == c ==> MatrixAfter(ns, order, X, Y, k)[c] == NodeRow(ns[order[j]], X, Y)
  {
    if k > 0 {
      MatrixAfterContents(ns, order, X, Y, k - 1, c);
    }
  }

  // ---------------------------------------------------------------------
  // Link utilisation
  // ---------------------------------------------------------------------

  /** Python's tuple order on positions: by x, then by y. */
  predicate CoordLe(a: Coord, b: Coord)
  {
    a.x < b.x || (a.x == b.x && a.y <= b.y)
  }

  /** The key of the link between a and b: the two positions in ascending order. */
  function LinkKey(a: Coord, b: Coord): (Coord, Coord)
  {
    if CoordLe(a, b) then (a, b) else (b, a)
  }

  /** A link key does not depend on the direction the traffic went, and holds the two ends in order. */
  lemma LinkKeySymmetric(a: Coord, b: Coord)
    ensures LinkKey(a, b) == LinkKey(b, a)
    ensures CoordLe(LinkKey(a, b).0, LinkKey(a, b).1)
    ensures {LinkKey(a, b).0, LinkKey(a, b).1} == {a, b}
  {
  }

  function AddTraffic(a: Traffic, b: Traffic): Traffic
  {
    Traffic(a.packets + b.packets, a.bytes + b.bytes)
  }

  /** One tally credited to one link. */
  datatype Contribution = Contribution(key: (Coord, Coord), traffic: Traffic)

  /** What the first k directions of node n credit to links: link directions entered in the matrix. */
  function DirContribs(n: Node, X: nat, Y: nat, k: nat): seq<Contribution>
    requires k <= |AllDirections|
  {
    if k == 0 then []
    else
      var d := AllDirections[k - 1];
      DirContribs(n, X, Y, k - 1) +
      (if Entered(n, X, Y, d) && d != Local
       then [Contribution(LinkKey(n.pos, MatrixNeighbor(X, Y, n.pos, d).value), n.trafficByDirection.Get(d))]
       else [])
  }

  /** What the nodes order[0], ..., order[k-1] credit to links, node by node. */
  function MeshContribs(ns: seq<Node>, order: seq<nat>, X: nat, Y: nat, k: nat): seq<Contribution>
    requires k <= |order| && forall j :: 0 <= j < |order| ==> order[j] < |ns|
  {
    if k == 0 then [] else MeshContribs(ns, order, X, Y, k - 1) + DirContribs(ns[order[k - 1]], X, Y, |AllDirections|)
  }

  /** Adds one contribution to the utilisation table, starting the link at zero if it is new. */
  function Credit(links: map<(Coord, Coord), Traffic>, c: Contribution): map<(Coord, Coord), Traffic>
  {
    var before := if c.key in links then links[c.key] else Traffic(0, 0);
    links[c.key := AddTraffic(before, c.traffic)]
  }

  /** The utilisation table after crediting the contributions in order. */
  function Accumulate(cs: seq<Contribution>): map<(Coord, Coord), Traffic>
  {
    if cs == [] then map[] else Credit(Accumulate(cs[..|cs| - 1]), cs[|cs| - 1])
  }

  /** Crediting one more contribution updates the table by exactly that contribution. */
  lemma AccumulateSnoc(cs: seq<Contribution>, c: Contribution)
    ensures Accumulate(cs + [c]) == Credit(Accumulate(cs), c)
  {
    assert (cs + [c])[..|cs|] == cs;
  }

  /** The contributions of one more direction, appended after what came before. */
  lemma DirContribsExtend(n: Node, X: nat, Y: nat, j: nat, before: seq<Contribution>)
    requires j < |AllDirections|
    ensures var d := AllDirections[j];
            before + DirContribs(n, X, Y, j + 1) ==
            before + DirContribs(n, X, Y, j) +
            (if Entered(n, X, Y, d) && d != Local
             then [Contribution(LinkKey(n.pos, MatrixNeighbor(X, Y, n.pos, d).value), n.trafficByDirection.Get(d))]
             else [])
  {
  }

  /** The sum of the tallies credited to one link. */
  function KeyTotal(cs: seq<Contribution>, key: (Coord, Coord)): Traffic
  {
    if cs == [] then Traffic(0, 0)
    else AddTraffic(KeyTotal(cs[..|cs| - 1], key), if cs[|cs| - 1].key == key then cs[|cs| - 1].traffic else Traffic(0, 0))
  }

  /** The utilisation table has an entry for exactly the links some contribution names. */
  lemma {:induction false} AccumulateKeys(cs: seq<Contribution>, key: (Coord, Coord))
    ensures key in Accumulate(cs) <==> exists i :: 0 <= i < |cs| && cs[i].key == key
  {
    if cs != [] {
      var init := cs[..|cs| - 1];
      AccumulateKeys(init, key);
      if exists i :: 0 <= i < |cs| && cs[i].key == key {
        var i :| 0 <= i < |cs| && cs[i].key == key;
        if i < |cs| - 1 {
          assert init[i].key == key;
        }
      }
      if exists i :: 0 <= i < |init| && init[i].key == key {
        var i :| 0 <= i < |init| && init[i].key == key;
        assert cs[i].key == key;
      }
    }
  }

  /** Each entry of the utilisation table is the sum of everything credited to that link. */
  lemma {:induction false} AccumulateSums(cs: seq<Contribution>, key: (Coord, Coord))
    ensures key in Accumulate(cs) ==> Accumulate(cs)[key] == KeyTotal(cs, key)
  {
    if cs != [] {
      var init := cs[..|cs| - 1];
      AccumulateSums(init, key);
      if key !in Accumulate(init) {
        AccumulateKeys(init, key);
        KeyTotalAbsent(init, key);
      }
    }
  }

  lemma {:induction false} KeyTotalAbsent(cs: seq<Contribution>, key: (Coord, Coord))
    requires forall i :: 0 <= i < |cs| ==> cs[i].key != key
    ensures KeyTotal(cs, key) == Traffic(0, 0)
  {
    if cs != [] {
      var init := cs[..|cs| - 1];
      assert forall i :: 0 <= i < |init| ==> init[i].key != key by {
        forall i | 0 <= i < |init|
          ensures init[i].key != key
        {
          assert init[i] == cs[i];
        }
      }
      KeyTotalAbsent(init, key);
    }
  }

  /**
   * Every link a node credits joins two mesh-adjacent positions, so both
   * directions of a link are credited to the same entry (see
   * LinkKeySymmetric) and no wrap-around link of a torus is ever credited.
   */
  lemma {:induction false} DirContribsAdjacent(n: Node, X: nat, Y: nat, k: nat, i: nat)
    requires k <= |AllDirections| && InGrid(X, Y, n.pos) && i < |DirContribs(n, X, Y, k)|
    ensures exists d :: d != Local && Neighbor(Mesh, X, Y, n.pos, d).Some? &&
              DirContribs(n, X, Y, k)[i] == Contribution(LinkKey(n.pos, Neighbor(Mesh, X, Y, n.pos, d).value), n.trafficByDirection.Get(d)) &&
              n.trafficByDirection.Get(d).packets > 0
  {
    var prev := DirContribs(n, X, Y, k - 1);
    if i < |prev| {
      DirContribsAdjacent(n, X, Y, k - 1, i);
    } else {
      var d := AllDirections[k - 1];
      MatrixNeighborIsMeshNeighbor(X, Y, n.pos, d);
      assert DirContribs(n, X, Y, k)[i] == Contribution(LinkKey(n.pos, Neighbor(Mesh, X, Y, n.pos, d).value), n.trafficByDirection.Get(d));
    }
  }

  // ---------------------------------------------------------------------
  // Hotspots and congestion
  // ---------------------------------------------------------------------

  /**
   * A ranked node: its position, its score num / den (den > 0) and its
   * forwarded-packet count.  Hotspots score their total bytes over 1,
   * congestion candidates their forwarding ratio.
   */
  datatype Ranked = Ranked(pos: Coord, num: int, den: nat, forwarded: nat)

  /** Score comparison, exact for rationals with positive denominators. */
  predicate AtLeast(a: Ranked, b: Ranked)
  {
    a.num * b.den >= b.num * a.den
  }

  predicate PositiveDens(s: seq<Ranked>)
  {
    forall i :: 0 <= i < |s| ==> s[i].den > 0
  }

  /** Descending by score: each entry scores at least as high as the next. */
  predicate SortedDescending(s: seq<Ranked>)
  {
    forall i :: 0 <= i < |s| - 1 ==> AtLeast(s[i], s[i + 1])
  }

  /** Inserts x into a descending list after every entry scoring at least as high, so ties keep their order. */
  function Insert(s: seq<Ranked>, x: Ranked): (r: seq<Ranked>)
    ensures |r| == |s| + 1
    ensures multiset(r) == multiset(s) + multiset{x}
  {
    if s == [] then [x]
    else if AtLeast(s[0], x) then
      assert s == [s[0]] + s[1..];
      [s[0]] + Insert(s[1..], x)
    else [x] + s
  }

  lemma {:induction false} InsertSorted(s: seq<Ranked>, x: Ranked)
    requires SortedDescending(s)
    ensures SortedDescending(Insert(s, x))
    ensures Insert(s, x)[0] == x || (s != [] && Insert(s, x)[0] == s[0])
  {
    if s != [] && AtLeast(s[0], x) {
      InsertSorted(s[1..], x);
    }
  }

  /** The stable descending sort a reversed Python sort performs, written as insertion sort. */
  function SortDescending(s: seq<Ranked>): seq<Ranked>
  {
    if s == [] then [] else Insert(SortDescending(s[..|s| - 1]), s[|s| - 1])
  }

  /** The ranking is ordered by score, highest first, and lists every entry exactly once. */
  lemma SortDescendingCorrect(s: seq<Ranked>)
    ensures SortedDescending(SortDescending(s))
    ensures multiset(SortDescending(s)) == multiset(s)
  {
    SortDescendingSorted(s);
    SortDescendingPermutes(s);
  }

  lemma {:induction false} SortDescendingSorted(s: seq<Ranked>)
    ensures SortedDescending(SortDescending(s))
  {
    if s != [] {
      SortDescendingSorted(s[..|s| - 1]);
      InsertSorted(SortDescending(s[..|s| - 1]), s[|s| - 1]);
    }
  }

  lemma {:induction false} SortDescendingPermutes(s: seq<Ranked>)
    ensures multiset(SortDescending(s)) == multiset(s)
  {
    if s != [] {
      SortDescendingPermutes(s[..|s| - 1]);
      assert s == s[..|s| - 1] + [s[|s| - 1]];
    }
  }

  /** Descending order is transitive, so every entry scores at least as high as every later one. */
  lemma AtLeastTransitive(a: Ranked, b: Ranked, c: Ranked)
    requires a.den > 0 && b.den > 0 && c.den > 0 && AtLeast(a, b) && AtLeast(b, c)
    ensures AtLeast(a, c)
  {
    calc {
      (a.num * c.den) * b.den;
    == (a.num * b.den) * c.den;
    >= { MulRight(a.num * b.den, b.num * a.den, c.den); }
      (b.num * a.den) * c.den;
    == (b.num * c.den) * a.den;
    >= { MulRight(b.num * c.den, c.num * b.den, a.den); }
      (c.num * b.den) * a.den;
    == (c.num * a.den) * b.den;
    }
    if a.num * c.den < c.num * a.den {
      MulRightStrict(a.num * c.den, c.num * a.den, b.den);
    }
  }

  lemma MulRight(x: int, y: int, k: nat)
    requires x >= y
    ensures x * k >= y * k
  {
  }

  lemma MulRightStrict(x: int, y: int, k: nat)
    requires x < y && k > 0
    ensures x * k < y * k
  {
  }

  lemma {:induction false} SortedAllPairs(s: seq<Ranked>, i: nat, j: nat)
    requires SortedDescending(s) && PositiveDens(s) && i < j < |s|
    ensures AtLeast(s[i], s[j])
    decreases j - i
  {
    if i + 1 < j {
      SortedAllPairs(s, i + 1, j);
      AtLeastTransitive(s[i], s[i + 1], s[j]);
    }
  }

  // ---------------------------------------------------------------------
  // Stability: entries with equal scores keep their input order
  // ---------------------------------------------------------------------

  /** Two entries with the same score: each scores at least as high as the other. */
  predicate Tie(a: Ranked, b: Ranked)
  {
    AtLeast(a, b) && AtLeast(b, a)
  }

  /** The test "scores the same as x", for filtering a ranking. */
  function TiesWith(x: Ranked): Ranked -> bool
  {
    e => Tie(e, x)
  }

  lemma {:induction false} NoTiesFilter(t: seq<Ranked>, x: Ranked)
    requires forall i :: 0 <= i < |t| ==> !Tie(t[i], x)
    ensures NodeSets.Filter(t, TiesWith(x)) == []
  {
    if |t| > 0 {
      NoTiesFilter(t[..|t| - 1], x);
    }
  }

  /** An entry below a scores below every entry tying with it. */
  lemma TieBelow(a: Ranked, e: Ranked, x: Ranked, y: Ranked)
    requires a.den > 0 && e.den > 0 && x.den > 0 && y.den > 0
    requires AtLeast(a, e) && Tie(y, x)
    ensures Tie(e, x) ==> AtLeast(a, y)
  {
    if Tie(e, x) {
      AtLeastTransitive(e, x, y);
      AtLeastTransitive(a, e, y);
    }
  }

  /**
   * Inserting y into a descending list puts it after every entry tying with
   * it, so the entries tying with any x keep their order, y last among them.
   */
  lemma {:induction false} InsertStable(t: seq<Ranked>, y: Ranked, x: Ranked)
    requires SortedDescending(t) && PositiveDens(t) && y.den > 0 && x.den > 0
    ensures NodeSets.Filter(Insert(t, y), TiesWith(x))
            == NodeSets.Filter(t, TiesWith(x)) + (if Tie(y, x) then [y] else [])
  {
    if t == [] {
      assert [y][..0] == [];
    } else if AtLeast(t[0], y) {
      InsertStable(t[1..], y, x);
      InsertPastHead(t, y, x);
    } else {
      InsertAtHead(t, y, x);
    }
  }

  /** Insertion past a head scoring at least as high as y: the head's contribution stays in front. */
  lemma InsertPastHead(t: seq<Ranked>, y: Ranked, x: Ranked)
    requires t != [] && AtLeast(t[0], y)
    requires NodeSets.Filter(Insert(t[1..], y), TiesWith(x))
             == NodeSets.Filter(t[1..], TiesWith(x)) + (if Tie(y, x) then [y] else [])
    ensures NodeSets.Filter(Insert(t, y), TiesWith(x))
            == NodeSets.Filter(t, TiesWith(x)) + (if Tie(y, x) then [y] else [])
  {
    var p, h := TiesWith(x), [t[0]];
    var ty := if Tie(y, x) then [y] else [];
    var a, rest := NodeSets.Filter(h, p), NodeSets.Filter(t[1..], p);
    var inserted := Insert(t[1..], y);
    assert NodeSets.Filter(Insert(t, y), p) == a + NodeSets.Filter(inserted, p) by {
      assert Insert(t, y) == h + inserted;
      NodeSets.FilterAppend(h, inserted, p);
    }
    assert NodeSets.Filter(t, p) == a + rest by {
      assert t == h + t[1..];
      NodeSets.FilterAppend(h, t[1..], p);
    }
    assert a + (rest + ty) == (a + rest) + ty;
  }

  /** Insertion in front of a head scoring below y: nothing after y ties with it. */
  lemma InsertAtHead(t: seq<Ranked>, y: Ranked, x: Ranked)
    requires SortedDescending(t) && PositiveDens(t) && y.den > 0 && x.den > 0
    requires t != [] && !AtLeast(t[0], y)
    ensures NodeSets.Filter(Insert(t, y), TiesWith(x))
            == NodeSets.Filter(t, TiesWith(x)) + (if Tie(y, x) then [y] else [])
  {
    var p := TiesWith(x);
    assert NodeSets.Filter([y], p) == (if Tie(y, x) then [y] else []) by {
      assert [y][..0] == [];
    }
    assert Insert(t, y) == [y] + t;
    NodeSets.FilterAppend([y], t, p);
    if Tie(y, x) {
      forall i | 0 <= i < |t|
        ensures !Tie(t[i], x)
      {
        if i > 0 {
          SortedAllPairs(t, 0, i);
        }
        TieBelow(t[0], t[i], x, y);
      }
      NoTiesFilter(t, x);
    }
  }

  /**
   * The ranking is stable, like Python's `sort(reverse=True)`: the entries
   * scoring the same as any x appear in the ranking in their input order.
   */
  lemma {:induction false} SortDescendingStable(s: seq<Ranked>, x: Ranked)
    requires PositiveDens(s) && x.den > 0
    ensures NodeSets.Filter(SortDescending(s), TiesWith(x)) == NodeSets.Filter(s, TiesWith(x))
  {
    if s != [] {
      var s', y := s[..|s| - 1], s[|s| - 1];
      assert s == s' + [y];
      NodeSets.FilterSnoc(s', y, TiesWith(x));
      var sorted := SortDescending(s');
      assert SortDescending(s) == Insert(sorted, y);
      assert PositiveDens(sorted) by {
        SortDescendingPermutes(s');
        forall i | 0 <= i < |sorted|
          ensures sorted[i].den > 0
        {
          assert sorted[i] in multiset(s');
        }
      }
      SortDescendingSorted(s');
      SortDescendingStable(s', x);
      InsertStable(sorted, y, x);
    }
  }

  /** A node's hotspot entry: total bytes sent, received and forwarded. */
  function HotspotEntry(n: Node): Ranked
  {
    Ranked(n.pos, n.bytesSent + n.bytesReceived + n.bytesForwarded, 1, n.packetsForwarded)
  }

  /** A node's forwarding ratio: forwarded over sent + received + 1. */
  function RatioEntry(n: Node): Ranked
  {
    Ranked(n.pos, n.packetsForwarded, n.packetsSent + n.packetsReceived + 1, n.packetsForwarded)
  }

  /**
   * A node is congested when it forwarded something and its forwarding ratio
   * exceeds one half; with the ratio's positive denominator this is an
   * integer comparison.
   */
  predicate Congested(n: Node)
  {
    n.packetsForwarded > 0 && 2 * n.packetsForwarded > n.packetsSent + n.packetsReceived + 1
  }

  /** Congestion is exactly a ratio above one half. */
  lemma CongestedIsRatioAboveHalf(n: Node)
    ensures Congested(n) <==> n.packetsForwarded > 0 && AtLeast(RatioEntry(n), Ranked(n.pos, 1, 2, 0)) && !AtLeast(Ranked(n.pos, 1, 2, 0), RatioEntry(n))
  {
  }

  /** Hotspot entries of the nodes order[0], ..., order[k-1], in visit order. */
  function HotspotEntries(ns: seq<Node>, order: seq<nat>, k: nat): (r: seq<Ranked>)
    requires k <= |order| && forall j :: 0 <= j < |order| ==> order[j] < |ns|
    ensures |r| == k && PositiveDens(r)
  {
    if k == 0 then [] else HotspotEntries(ns, order, k - 1) + [HotspotEntry(ns[order[k - 1]])]
  }

  /** Ratio entries of the congested nodes among order[0], ..., order[k-1], in visit order. */
  function CongestedEntries(ns: seq<Node>, order: seq<nat>, k: nat): (r: seq<Ranked>)
    requires k <= |order| && forall j :: 0 <= j < |order| ==> order[j] < |ns|
    ensures PositiveDens(r)
  {
    if k == 0 then []
    else CongestedEntries(ns, order, k - 1) + (if Congested(ns[order[k - 1]]) then [RatioEntry(ns[order[k - 1]])] else [])
  }

  /** A visited node is listed as congested exactly when it is congested. */
  lemma {:induction false} CongestedEntriesContents(ns: seq<Node>, order: seq<nat>, k: nat, e: Ranked)
    requires k <= |order| && forall j :: 0 <= j < |order| ==> order[j] < |ns|
    ensures e in CongestedEntries(ns, order, k) <==>
              exists j :: 0 <= j < k && Congested(ns[order[j]]) && e == RatioEntry(ns[order[j]])
  {
    if k > 0 {
      CongestedEntriesContents(ns, order, k - 1, e);
    }
  }

  /** The hotspot ranking is ordered by total bytes, highest first, and lists every node's entry exactly once. */
  lemma HotspotRanking(ns: seq<Node>, order: seq<nat>, r: seq<Ranked>)
    requires forall j :: 0 <= j < |order| ==> order[j] < |ns|
    requires r == SortDescending(HotspotEntries(ns, order, |order|))
    ensures SortedDescending(r) && multiset(r) == multiset(HotspotEntries(ns, order, |order|))
  {
    SortDescendingCorrect(HotspotEntries(ns, order, |order|));
  }

  /** Entry e is the ratio entry of a congested node among the visited ones. */
  predicate CongestedEntry(ns: seq<Node>, order: seq<nat>, e: Ranked)
    requires forall j :: 0 <= j < |order| ==> order[j] < |ns|
  {
    exists j :: 0 <= j < |order| && Congested(ns[order[j]]) && e == RatioEntry(ns[order[j]])
  }

  /** The congestion list, ranked: highest ratio first, and holding exactly the congested nodes' entries. */
  lemma CongestedRanking(ns: seq<Node>, order: seq<nat>, r: seq<Ranked>)
    requires forall j :: 0 <= j < |order| ==> order[j] < |ns|
    requires r == SortDescending(CongestedEntries(ns, order, |order|))
    ensures SortedDescending(r)
    ensures forall e :: e in r <==> CongestedEntry(ns, order, e)
  {
    assert SortedDescending(r) by {
      SortDescendingCorrect(CongestedEntries(ns, order, |order|));
    }
    forall e
      ensures e in r <==> CongestedEntry(ns, order, e)
    {
      CongestedMember(ns, order, r, e);
    }
  }

  lemma CongestedMember(ns: seq<Node>, order: seq<nat>, r: seq<Ranked>, e: Ranked)
    requires forall j :: 0 <= j < |order| ==> order[j] < |ns|
    requires r == SortDescending(CongestedEntries(ns, order, |order|))
    ensures e in r <==> CongestedEntry(ns, order, e)
  {
    var candidates := CongestedEntries(ns, order, |order|);
    SortDescendingCorrect(candidates);
    CongestedEntriesContents(ns, order, |order|, e);
    assert e in r <==> e in multiset(r);
    assert e in candidates <==> e in multiset(candidates);
  }
}
