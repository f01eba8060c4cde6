/**
 * Statistic names of the form node_{x}_{y}_{metric}, as both simulators
 * build them, and the report step that splits such a name back into a node
 * key "(x,y)" and a metric (the metric may itself contain underscores),
 * groups the values by node and sums them per metric.
 */
module StatNames {
  import opened Wrappers

  // ---------------------------------------------------------------------
  // str.split / str.join on a one-character separator
  // ---------------------------------------------------------------------

  /** `s.split(sep)`: the maximal pieces between separators; "" gives one empty piece. */
  function Split(s: string, sep: char): (r: seq<string>)
    ensures |r| >= 1
    decreases |s|
  {
    if |s| == 0 then [""]
    else
      var rest := Split(s[1..], sep);
      if s[0] == sep then [""] + rest
      else [[s[0]] + rest[0]] + rest[1..]
  }

  /** `sep.join(parts)`. */
  function Join(parts: seq<string>, sep: char): string
    decreases |parts|
  {
    if |parts| == 0 then ""
    else if |parts| == 1 then parts[0]
    else parts[0] + [sep] + Join(parts[1..], sep)
  }

  /** No piece of a split contains the separator. */
  lemma {:induction false} SplitPiecesFree(s: string, sep: char)
    ensures forall i :: 0 <= i < |Split(s, sep)| ==> sep !in Split(s, sep)[i]
    decreases |s|
  {
    if |s| > 0 {
      SplitPiecesFree(s[1..], sep);
    }
  }

  /** Joining the pieces of a split gives the string back. */
  lemma {:induction false} JoinSplit(s: string, sep: char)
    ensures Join(Split(s, sep), sep) == s
    decreases |s|
  {
    if |s| > 0 {
      var rest := Split(s[1..], sep);
      JoinSplit(s[1..], sep);
      if s[0] == sep {
        assert Join(Split(s, sep), sep) == [sep] + Join(rest, sep);
      } else if |rest| > 1 {
        assert Join(rest, sep) == rest[0] + [sep] + Join(rest[1..], sep);
        assert Split(s, sep)[1..] == rest[1..];
        assert Join(Split(s, sep), sep) == [s[0]] + rest[0] + [sep] + Join(rest[1..], sep);
      }
    }
  }

  /** A separator-free piece followed by the separator splits off as the first piece. */
  lemma {:induction false} SplitAfterPiece(a: string, sep: char, rest: string)
    requires sep !in a
    ensures Split(a + [sep] + rest, sep) == [a] + Split(rest, sep)
    decreases |a|
  {
    var s := a + [sep] + rest;
    if |a| == 0 {
      assert s[1..] == rest;
    } else {
      assert s[1..] == a[1..] + [sep] + rest;
      SplitAfterPiece(a[1..], sep, rest);
      assert [s[0]] + a[1..] == a;
    }
  }

  // ---------------------------------------------------------------------
  // Substring test and decimal rendering
  // ---------------------------------------------------------------------

  predicate StartsWith(s: string, p: string)
  {
    |p| <= |s| && s[..|p|] == p
  }

  /** Python's `t in s` on strings: `t` occurs somewhere in `s`. */
  predicate Contains(s: string, t: string)
    decreases |s|
  {
    StartsWith(s, t) || (|s| > 0 && Contains(s[1..], t))
  }

  predicate IsDigit(ch: char)
  {
    '0' <= ch <= '9'
  }

  function DigitChar(d: nat): (ch: char)
    requires d < 10
    ensures IsDigit(ch)
  {
    ('0' as int + d) as char
  }

  function DigitValue(ch: char): int
  {
    ch as int - '0' as int
  }

  /** `str(n)` for a non-negative integer: its decimal digits, most significant first. */
  function NatStr(n: nat): (r: string)
    ensures |r| >= 1
    decreases n
  {
    if n < 10 then [DigitChar(n)] else NatStr(n / 10) + [DigitChar(n % 10)]
  }

  /** The value of a string of decimal digits (used only to state that NatStr loses nothing). */
  function DecimalValue(s: string): int
    decreases |s|
  {
    if |s| == 0 then 0 else DecimalValue(s[..|s| - 1]) * 10 + DigitValue(s[|s| - 1])
  }

  /** NatStr produces only digits, so never an underscore. */
  lemma {:induction false} NatStrDigits(n: nat)
    ensures forall i :: 0 <= i < |NatStr(n)| ==> IsDigit(NatStr(n)[i])
    decreases n
  {
    if n >= 10 {
      NatStrDigits(n / 10);
    }
  }

  /** Reading NatStr(n) back as a decimal gives n. */
  lemma {:induction false} NatStrValue(n: nat)
    ensures DecimalValue(NatStr(n)) == n
    decreases n
  {
    if n >= 10 {
      var s := NatStr(n);
      NatStrValue(n / 10);
      assert s[..|s| - 1] == NatStr(n / 10);
    }
  }

  /** Different numbers render differently. */
  lemma NatStrInjective(a: nat, b: nat)
    requires NatStr(a) == NatStr(b)
    ensures a == b
  {
    NatStrValue(a);
    NatStrValue(b);
  }

  lemma NoUnderscore(n: nat)
    ensures '_' !in NatStr(n)
  {
    NatStrDigits(n);
  }

  // ---------------------------------------------------------------------
  // node_{x}_{y}_{metric}
  // ---------------------------------------------------------------------

  /** The name under which node (x, y) registers `metric`. */
  function StatName(x: nat, y: nat, metric: string): string
  {
    "node_" + NatStr(x) + "_" + NatStr(y) + "_" + metric
  }

  /** The report's key for node (x, y): "(x,y)". */
  function NodeKey(x: nat, y: nat): string
  {
    "(" + NatStr(x) + "," + NatStr(y) + ")"
  }

  datatype Parsed = Parsed(nodeKey: string, metric: string)

  /**
   * The report's reading of a statistic name: names containing "node_" with
   * at least four '_'-separated pieces give the key "(p1,p2)" and the metric
   * made of the remaining pieces re-joined by '_'; other names are skipped.
   */
  function ParseStatName(name: string): Option<Parsed>
  {
    if !Contains(name, "node_") then None
    else
      var parts := Split(name, '_');
      if |parts| < 4 then None
      else Some(Parsed("(" + parts[1] + "," + parts[2] + ")", Join(parts[3..], '_')))
  }

  /** The pieces of a statistic name: "node", the two coordinates, then the metric's own pieces. */
  lemma StatNamePieces(x: nat, y: nat, metric: string)
    ensures Split(StatName(x, y, metric), '_') == ["node", NatStr(x), NatStr(y)] + Split(metric, '_')
  {
    var xs, ys := NatStr(x), NatStr(y);
    var tail2 := ys + ['_'] + metric;
    var tail1 := xs + ['_'] + tail2;
    var ms := Split(metric, '_');
    assert Split(tail2, '_') == [ys] + ms by {
      NoUnderscore(y);
      SplitAfterPiece(ys, '_', metric);
    }
    assert Split(tail1, '_') == [xs] + ([ys] + ms) by {
      NoUnderscore(x);
      SplitAfterPiece(xs, '_', tail2);
    }
    assert Split(StatName(x, y, metric), '_') == ["node"] + Split(tail1, '_') by {
      assert StatName(x, y, metric) == "node" + ['_'] + tail1;
      SplitAfterPiece("node", '_', tail1);
    }
    assert ["node"] + ([xs] + ([ys] + ms)) == ["node", xs, ys] + ms;
  }

  /** A registered name parses back to its node key and to the metric, underscores included. */
  lemma ParseStatNameRoundTrip(x: nat, y: nat, metric: string)
    ensures ParseStatName(StatName(x, y, metric)) == Some(Parsed(NodeKey(x, y), metric))
  {
    var name := StatName(x, y, metric);
    assert StartsWith(name, "node_");
    var parts := Split(name, '_');
    StatNamePieces(x, y, metric);
    assert parts[3..] == Split(metric, '_');
    JoinSplit(metric, '_');
  }

  /** Distinct (x, y, metric) triples register under distinct names. */
  lemma StatNameInjective(x1: nat, y1: nat, m1: string, x2: nat, y2: nat, m2: string)
    requires StatName(x1, y1, m1) == StatName(x2, y2, m2)
    ensures x1 == x2 && y1 == y2 && m1 == m2
  {
    StatNamePieces(x1, y1, m1);
    StatNamePieces(x2, y2, m2);
    var p1 := Split(StatName(x1, y1, m1), '_');
    assert p1[1] == NatStr(x1) && p1[1] == NatStr(x2);
    assert p1[2] == NatStr(y1) && p1[2] == NatStr(y2);
    NatStrInjective(x1, x2);
    NatStrInjective(y1, y2);
    assert Split(m1, '_') == p1[3..] == Split(m2, '_');
    JoinSplit(m1, '_');
    JoinSplit(m2, '_');
  }

  // ---------------------------------------------------------------------
  // Grouping by node and the network totals of the report
  // ---------------------------------------------------------------------

  /** One row of the report's per-node table. */
  datatype NodeStats = NodeStats(key: string, metrics: map<string, int>)

  /** `node_stats[key][metric] = v`: update the row with that key, or add one at the end. */
  function Store(g: seq<NodeStats>, key: string, metric: string, v: int): (r: seq<NodeStats>)
    decreases |g|
  {
    if |g| == 0 then [NodeStats(key, map[metric := v])]
    else if g[0].key == key then [g[0].(metrics := g[0].metrics[metric := v])] + g[1..]
    else [g[0]] + Store(g[1..], key, metric, v)
  }

  /** The per-node table built from the statistics (name, value) in dictionary order. */
  function GroupByNode(entries: seq<(string, int)>): seq<NodeStats>
    decreases |entries|
  {
    if |entries| == 0 then []
    else
      var g := GroupByNode(entries[..|entries| - 1]);
      var e := entries[|entries| - 1];
      match ParseStatName(e.0)
      case None => g
      case Some(p) => Store(g, p.nodeKey, p.metric, e.1)
  }

  /** The table's value for (key, metric), if it has one. */
  function Lookup(g: seq<NodeStats>, key: string, metric: string): Option<int>
    decreases |g|
  {
    if |g| == 0 then None
    else if g[0].key == key then (if metric in g[0].metrics then Some(g[0].metrics[metric]) else None)
    else Lookup(g[1..], key, metric)
  }

  /** Reference reading: the value of the LAST entry whose name parses to (key, metric). */
  function LastValue(entries: seq<(string, int)>, key: string, metric: string): Option<int>
    decreases |entries|
  {
    if |entries| == 0 then None
    else
      var e := entries[|entries| - 1];
      if ParseStatName(e.0) == Some(Parsed(key, metric)) then Some(e.1)
      else LastValue(entries[..|entries| - 1], key, metric)
  }

  predicate KeysDistinct(g: seq<NodeStats>)
  {
    forall i, j :: 0 <= i < j < |g| ==> g[i].key != g[j].key
  }

  lemma {:induction false} StoreLookup(g: seq<NodeStats>, key: string, metric: string, v: int, k2: string, m2: string)
    ensures Lookup(Store(g, key, metric, v), k2, m2) ==
            (if k2 == key && m2 == metric then Some(v) else Lookup(g, k2, m2))
    decreases |g|
  {
    if |g| > 0 && g[0].key != key {
      StoreLookup(g[1..], key, metric, v, k2, m2);
    }
  }

  lemma {:induction false} StoreKeys(g: seq<NodeStats>, key: string, metric: string, v: int)
    requires KeysDistinct(g)
    ensures KeysDistinct(Store(g, key, metric, v))
    ensures forall i :: 0 <= i < |Store(g, key, metric, v)| ==>
              Store(g, key, metric, v)[i].key == key || exists j :: 0 <= j < |g| && g[j].key == Store(g, key, metric, v)[i].key
    decreases |g|
  {
    if |g| > 0 && g[0].key != key {
      StoreKeys(g[1..], key, metric, v);
      var r := Store(g, key, metric, v);
      forall i | 0 <= i < |r|
        ensures r[i].key == key || exists j :: 0 <= j < |g| && g[j].key == r[i].key
      {
        if i > 0 {
          var r1 := Store(g[1..], key, metric, v);
          assert r[i] == r1[i - 1];
          if r1[i - 1].key != key {
            var j :| 0 <= j < |g[1..]| && g[1..][j].key == r1[i - 1].key;
            assert g[j + 1].key == r[i].key;
          }
        } else {
          assert g[0].key == r[0].key;
        }
      }
    }
  }

  /** The per-node table has one row per node key, like the dictionary it models. */
  lemma {:induction false} GroupByNodeKeysDistinct(entries: seq<(string, int)>)
    ensures KeysDistinct(GroupByNode(entries))
    decreases |entries|
  {
    if |entries| > 0 {
      GroupByNodeKeysDistinct(entries[..|entries| - 1]);
      var e := entries[|entries| - 1];
      if ParseStatName(e.0).Some? {
        var p := ParseStatName(e.0).value;
        StoreKeys(GroupByNode(entries[..|entries| - 1]), p.nodeKey, p.metric, e.1);
      }
    }
  }

  /** A later statistic with the same node key and metric overwrites an earlier one. */
  lemma {:induction false} GroupByNodeLastWins(entries: seq<(string, int)>, key: string, metric: string)
    ensures Lookup(GroupByNode(entries), key, metric) == LastValue(entries, key, metric)
    decreases |entries|
  {
    if |entries| > 0 {
      var front := entries[..|entries| - 1];
      GroupByNodeLastWins(front, key, metric);
      var e := entries[|entries| - 1];
      if ParseStatName(e.0).Some? {
        var p := ParseStatName(e.0).value;
        StoreLookup(GroupByNode(front), p.nodeKey, p.metric, e.1, key, metric);
      }
    }
  }

  /** `sum(metrics.get(metric, 0) for metrics in node_stats.values())`. */
  function Total(g: seq<NodeStats>, metric: string): int
    decreases |g|
  {
    if |g| == 0 then 0
    else (if metric in g[0].metrics then g[0].metrics[metric] else 0) + Total(g[1..], metric)
  }

  /**
   * The network summary of the report.  The average hop count is a float in
   * the source; it is kept as the fraction (total hops, total received).
   */
  datatype Summary = Summary(totalSent: int, totalReceived: int, totalForwarded: int,
                             totalHopCount: int, averageHops: Option<(int, int)>)

  function Summarize(entries: seq<(string, int)>): (r: Summary)
    ensures r.averageHops.Some? <==> r.totalReceived > 0
    ensures r.averageHops.Some? ==> r.averageHops.value == (r.totalHopCount, r.totalReceived)
  {
    var g := GroupByNode(entries);
    var received := Total(g, "packets_received");
    var hops := Total(g, "hop_count");
    Summary(Total(g, "packets_sent"), received, Total(g, "packets_forwarded"), hops,
            if received > 0 then Some((hops, received)) else None)
  }
}
