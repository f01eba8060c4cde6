/**
 * Node-set helpers shared by both copies of the NoC mesh classes: the set of
 * memory-node ids a mesh is given or defaults to, and the order-preserving
 * filter behind `get_compute_nodes` / `get_memory_nodes`.
 */
module NodeSets {
  import opened Wrappers
  import opened Grid

  /**
   * The default memory nodes: the ids of the four corners, as a set, so on a
   * mesh one node wide or one node tall the coinciding corners collapse.
   */
  function DefaultMemoryNodes(X: int, Y: int): set<int>
  {
    {0, X - 1, (Y - 1) * X, X * Y - 1}
  }

  /** `memory_nodes` argument: None selects the corners, a list is turned into a set. */
  function MemoryNodeSet(X: int, Y: int, memoryNodes: Option<seq<int>>): (r: set<int>)
    ensures memoryNodes.Some? ==> forall i :: i in r <==> i in memoryNodes.value
  {
    match memoryNodes
    case None => DefaultMemoryNodes(X, Y)
    case Some(ids) => set i | i in ids
  }

  /** A position in a corner of the grid. */
  predicate IsCorner(X: nat, Y: nat, c: Coord)
  {
    (c.x == 0 || c.x == X - 1) && (c.y == 0 || c.y == Y - 1)
  }

  /** On every grid, the ids in the default set are exactly the ids of the corner positions. */
  lemma DefaultMemoryCorners(X: nat, Y: nat, id: nat)
    requires 0 < X && id < X * Y
    ensures id in DefaultMemoryNodes(X, Y) <==> IsCorner(X, Y, CoordOf(X, id))
  {
    var c := CoordOf(X, id);
    CoordOfBounds(X, Y, id);
    assert id == c.y * X + c.x;
    if id in DefaultMemoryNodes(X, Y) {
      if id == 0 {
        DivModUnique(id, X, 0, 0);
      } else if id == X - 1 {
        DivModUnique(id, X, 0, X - 1);
      } else if id == (Y - 1) * X {
        DivModUnique(id, X, Y - 1, 0);
      } else {
        assert X * Y - 1 == (Y - 1) * X + (X - 1);
        DivModUnique(id, X, Y - 1, X - 1);
      }
    }
    if IsCorner(X, Y, c) {
      assert X * Y - 1 == (Y - 1) * X + (X - 1);
    }
  }

  /**
   * The default set has four ids on a grid at least two wide and two tall,
   * two on a single row or column, one on a single node.
   */
  lemma DefaultMemoryCount(X: nat, Y: nat)
    requires 0 < X && 0 < Y
    ensures |DefaultMemoryNodes(X, Y)| == (if X >= 2 then 2 else 1) * (if Y >= 2 then 2 else 1)
  {
    if X >= 2 && Y >= 2 {
      FourCorners(X, Y);
    } else if X >= 2 {
      assert DefaultMemoryNodes(X, Y) == {0, X - 1};
    } else if Y >= 2 {
      assert DefaultMemoryNodes(X, Y) == {0, Y - 1};
    } else {
      assert DefaultMemoryNodes(X, Y) == {0};
    }
  }

  lemma FourCorners(X: nat, Y: nat)
    requires X >= 2 && Y >= 2
    ensures |DefaultMemoryNodes(X, Y)| == 4
  {
    var a, b, c, e := 0, X - 1, (Y - 1) * X, X * Y - 1;
    assert c >= X by { MulMonotone(1, Y - 1, X); }
    assert e == c + X - 1;
    DistinctFour(a, b, c, e);
  }

  lemma DistinctFour(a: int, b: int, c: int, e: int)
    requires a < b < c < e
    ensures |{a, b, c, e}| == 4
  {
    assert {a, b, c, e} == {a, b, c} + {e};
    assert {a, b, c} == {a, b} + {c};
  }

  // ---------------------------------------------------------------------
  // The order-preserving filter of a list comprehension
  // ---------------------------------------------------------------------

  /** `[x for x in s if p(x)]`. */
  function Filter<T>(s: seq<T>, p: T -> bool): (r: seq<T>)
    ensures |r| <= |s|
    ensures forall x :: x in r ==> x in s && p(x)
  {
    if |s| == 0 then [] else Filter(s[..|s| - 1], p) + (if p(s[|s| - 1]) then [s[|s| - 1]] else [])
  }

  lemma FilterSnoc<T>(s: seq<T>, x: T, p: T -> bool)
    ensures Filter(s + [x], p) == Filter(s, p) + (if p(x) then [x] else [])
  {
    assert (s + [x])[..|s|] == s;
  }

  /** Filtering distributes over concatenation, so the kept elements stay in their original order. */
  lemma {:induction false} FilterAppend<T>(s: seq<T>, t: seq<T>, p: T -> bool)
    ensures Filter(s + t, p) == Filter(s, p) + Filter(t, p)
  {
    if |t| == 0 {
      assert s + t == s;
    } else {
      var t', x := t[..|t| - 1], t[|t| - 1];
      var e := if p(x) then [x] else [];
      assert t == t' + [x];
      assert s + t == (s + t') + [x];
      calc {
        Filter(s + t, p);
        { FilterSnoc(s + t', x, p); }
        Filter(s + t', p) + e;
        { FilterAppend(s, t', p); }
        Filter(s, p) + Filter(t', p) + e;
        { FilterSnoc(t', x, p); }
        Filter(s, p) + Filter(t, p);
      }
    }
  }

  /** An element satisfying p is kept as often as it occurs; any other is dropped. */
  lemma {:induction false} FilterCount<T>(s: seq<T>, p: T -> bool, x: T)
    ensures multiset(Filter(s, p))[x] == if p(x) then multiset(s)[x] else 0
  {
    if |s| > 0 {
      var s' := s[..|s| - 1];
      assert s == s' + [s[|s| - 1]];
      FilterCount(s', p, x);
    }
  }

  /**
   * Two filters by complementary predicates split a list: every element
   * lands in exactly one of them, as often as it occurs.
   */
  lemma {:induction false} FilterPartition<T>(s: seq<T>, p: T -> bool, q: T -> bool)
    requires forall x :: q(x) == !p(x)
    ensures |Filter(s, p)| + |Filter(s, q)| == |s|
    ensures multiset(Filter(s, p)) + multiset(Filter(s, q)) == multiset(s)
  {
    if |s| > 0 {
      var s' := s[..|s| - 1];
      assert s == s' + [s[|s| - 1]];
      FilterPartition(s', p, q);
    }
  }

  /** The members of an id set that are ids of an n-node mesh. */
  function IdsBelow(ids: set<int>, n: nat): (r: set<int>)
    ensures forall i :: i in r <==> 0 <= i < n && i in ids
  {
    set i | 0 <= i < n && i in ids
  }

  /** Raising the bound by one adds the new id when it is in the set. */
  lemma IdsBelowStep(ids: set<int>, n: nat)
    ensures IdsBelow(ids, n + 1) == IdsBelow(ids, n) + (if n in ids then {n} else {})
    ensures |IdsBelow(ids, n + 1)| == |IdsBelow(ids, n)| + (if n in ids then 1 else 0)
  {
    assert IdsBelow(ids, n + 1) == IdsBelow(ids, n) + (if n in ids then {n} else {});
  }

  /** When element i of s satisfies p exactly when i is in `ids`, the filter keeps as many elements as `ids` has below |s|. */
  lemma {:induction false} FilterCountByIndex<T>(s: seq<T>, p: T -> bool, ids: set<int>)
    requires forall i :: 0 <= i < |s| ==> (p(s[i]) <==> i in ids)
    ensures |Filter(s, p)| == |IdsBelow(ids, |s|)|
  {
    var n := |s|;
    if n > 0 {
      var s' := s[..n - 1];
      assert |Filter(s', p)| == |IdsBelow(ids, n - 1)| by {
        assert forall i :: 0 <= i < |s'| ==> s'[i] == s[i];
        FilterCountByIndex(s', p, ids);
      }
      IdsBelowStep(ids, n - 1);
    }
  }

  /** On a non-empty grid every default memory id is a node id. */
  lemma DefaultIdsBelow(X: nat, Y: nat)
    requires 0 < X && 0 < Y
    ensures IdsBelow(DefaultMemoryNodes(X, Y), X * Y) == DefaultMemoryNodes(X, Y)
  {
    assert (Y - 1) * X < X * Y by { MulMonotone(Y - 1, Y, X); assert Y * X == (Y - 1) * X + X; }
  }

  /** No element occurs twice. */
  predicate Distinct<T(==)>(s: seq<T>)
  {
    forall i, j :: 0 <= i < j < |s| ==> s[i] != s[j]
  }

  lemma {:induction false} FilterDistinct<T>(s: seq<T>, p: T -> bool)
    requires Distinct(s)
    ensures Distinct(Filter(s, p))
  {
    if |s| > 0 {
      var s' := s[..|s| - 1];
      assert Distinct(s');
      FilterDistinct(s', p);
      assert s[|s| - 1] !in s';
    }
  }

  /** A list whose keys strictly increase keeps them increasing after filtering. */
  lemma {:induction false} FilterIncreasing<T>(s: seq<T>, p: T -> bool, key: T -> int)
    requires forall i, j :: 0 <= i < j < |s| ==> key(s[i]) < key(s[j])
    ensures forall i, j :: 0 <= i < j < |Filter(s, p)| ==> key(Filter(s, p)[i]) < key(Filter(s, p)[j])
  {
    if |s| > 0 {
      var s', x := s[..|s| - 1], s[|s| - 1];
      FilterIncreasing(s', p, key);
      var f' := Filter(s', p);
      forall k | 0 <= k < |f'|
        ensures key(f'[k]) < key(x)
      {
        assert f'[k] in s';
      }
    }
  }
}
