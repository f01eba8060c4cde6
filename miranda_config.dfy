/**
 * Workload configuration of the SST system builders (MirandaCPUMeshSystem,
 * current and deprecated copies): the default table of workload entries per
 * core type, the `set_workload_config` merge, the CPU parameters a node gets
 * from its core type's entry, and the per-node network address windows and
 * communication-pattern entries of the deprecated copy.
 *
 * Configuration dictionaries are string-keyed maps whose values are strings,
 * except "params", which is itself a string table.
 */
module MirandaConfig {
  import opened Wrappers
  import opened CoreTypes
  import opened StatNames

  /** A configuration value: a string, or a nested string table such as "params". */
  datatype Value = Text(text: string) | Table(table: map<string, string>)

  /** One workload entry ("generator", "max_reqs_cycle", "params", "description", ...). */
  type Config = map<string, Value>

  /** The two copies of the builder class. */
  datatype Edition = Current | Deprecated

  /** The Python exception an operation raises. */
  datatype Error = KeyError | AttributeError | ValueError | RuntimeError | ZeroDivisionError

  /** The workload-table key of each core type. */
  function CoreTypeName(k: CoreClass): string
  {
    match k
    case MasterCore => "master_core"
    case MemoryControllerCore => "memory_controller"
    case IoCore => "io_core"
    case ComputeCore => "compute_core"
  }

  function Entry(generator: string, maxReqs: string, params: map<string, string>, description: string): (r: Config)
    ensures "generator" in r && "max_reqs_cycle" in r && "params" in r && "description" in r
    ensures r["params"] == Table(params)
  {
    map["generator" := Text(generator), "max_reqs_cycle" := Text(maxReqs), "params" := Table(params),
        "description" := Text(description)]
  }

  /** The default entry of each core type; the deprecated copy has longer descriptions. */
  function DefaultEntry(e: Edition, k: CoreClass): Config
  {
    var dep := e == Deprecated;
    match k
    case MasterCore =>
      Entry("miranda.STREAMBenchGenerator", "2",
        map["verbose" := "1", "n" := "10000", "operandwidth" := "8", "iterations" := "100"],
        if dep then "主控核心 - STREAM基准测试 + 网络发送" else "主控核心 - STREAM基准测试")
    case MemoryControllerCore =>
      Entry("miranda.RandomGenerator", "4",
        map["verbose" := "1", "count" := "5000", "max_address" := "1048576", "min_address" := "0", "length" := "64"],
        if dep then "内存控制器 - 随机访问模式 + 远程内存访问" else "内存控制器 - 随机访问模式")
    case IoCore =>
      Entry("miranda.SingleStreamGenerator", "1",
        map["verbose" := "1", "count" := "2000", "start_a" := "0", "length" := "32", "stride" := "32"],
        if dep then "I/O核心 - 单流访问模式 + 数据分发" else "I/O核心 - 单流访问模式")
    case ComputeCore =>
      Entry("miranda.GUPSGenerator", "2",
        map["verbose" := "1", "count" := "3000", "max_address" := "524288", "min_address" := "0", "iterations" := "50"],
        if dep then "计算核心 - GUPS基准测试 + 点对点通信" else "计算核心 - GUPS基准测试")
  }

  /** The deprecated copy's extra "network_test" entry: random accesses from 1 MiB up to 16 MiB. */
  function NetworkTestEntry(): Config
  {
    Entry("miranda.RandomGenerator", "1",
      map["verbose" := "1", "count" := "1000", "max_address" := NatStr(0x100000 * 16), "min_address" := "1048576",
          "length" := "64"],
      "网络测试 - 跨节点内存访问")
  }

  /** `_get_default_workload_configs`: one entry per core type, plus "network_test" in the deprecated copy. */
  function DefaultWorkloadConfigs(e: Edition): map<string, Config>
  {
    var core := CoreTable(DefaultEntries(e));
    if e == Deprecated then core["network_test" := NetworkTestEntry()] else core
  }

  function DefaultEntries(e: Edition): CoreClass -> Config
  {
    (k: CoreClass) => DefaultEntry(e, k)
  }

  /** A table with one entry per core type, under the core type's name. */
  function CoreTable(entry: CoreClass -> Config): map<string, Config>
  {
    map["master_core" := entry(MasterCore), "memory_controller" := entry(MemoryControllerCore),
        "io_core" := entry(IoCore), "compute_core" := entry(ComputeCore)]
  }

  /**
   * `set_workload_config`: an existing entry is updated with the new keys
   * (which win), a missing one is inserted; no other entry changes.
   */
  function SetWorkloadConfig(cfgs: map<string, Config>, t: string, config: Config): (r: map<string, Config>)
    ensures r.Keys == cfgs.Keys + {t}
    ensures forall u :: u in cfgs && u != t ==> r[u] == cfgs[u]
    ensures r[t].Keys == config.Keys + (if t in cfgs then cfgs[t].Keys else {})
    ensures forall k :: k in config ==> r[t][k] == config[k]
    ensures t in cfgs ==> forall k :: k in cfgs[t] && k !in config ==> r[t][k] == cfgs[t][k]
  {
    if t in cfgs then cfgs[t := cfgs[t] + config] else cfgs[t := config]
  }

  // ---------------------------------------------------------------------
  // CPU parameters of a node
  // ---------------------------------------------------------------------

  const ParamPrefix := "generatorParams."

  /** The five fixed CPU parameter names. */
  const FixedParams: set<string> := {"verbose", "printStats", "clock", "max_reqs_cycle", "generator"}

  lemma PrefixedDistinct(k1: string, k2: string)
    ensures ParamPrefix + k1 == ParamPrefix + k2 ==> k1 == k2
    ensures ParamPrefix + k1 !in FixedParams
  {
    if ParamPrefix + k1 == ParamPrefix + k2 {
      assert k1 == (ParamPrefix + k1)[|ParamPrefix|..];
      assert k2 == (ParamPrefix + k2)[|ParamPrefix|..];
    }
    assert (ParamPrefix + k1)[0] == 'g';
    assert (ParamPrefix + k1)[1] == 'e';
    assert |ParamPrefix + k1| >= 16;
  }

  function Prefixed(params: map<string, string>): (r: map<string, Value>)
    ensures r.Keys == set k | k in params :: ParamPrefix + k
    ensures forall k :: k in params ==> ParamPrefix + k in r && r[ParamPrefix + k] == Text(params[k])
  {
    forall k1, k2 | k1 in params && k2 in params ensures ParamPrefix + k1 == ParamPrefix + k2 ==> k1 == k2 {
      PrefixedDistinct(k1, k2);
    }
    map k | k in params :: ParamPrefix + k := Text(params[k])
  }

  /** No prefixed generator parameter collides with a fixed one. */
  lemma PrefixedAvoidsFixed(params: map<string, string>)
    ensures forall k :: k in Prefixed(params) ==> k !in FixedParams
  {
    forall k | k in Prefixed(params) ensures k !in FixedParams {
      var k0 :| k0 in params && k == ParamPrefix + k0;
      PrefixedDistinct(k0, k0);
    }
  }

  /**
   * `_create_cpu_core`'s parameter dictionary for a workload entry: the five
   * fixed parameters plus every generator parameter under the
   * "generatorParams." prefix.  A missing "max_reqs_cycle", "generator" or
   * "params" raises KeyError; a "params" that is not a table raises
   * AttributeError.
   */
  function CpuParams(clock: string, wc: Config): (r: Result<map<string, Value>, Error>)
    ensures r.Ok? <==> "max_reqs_cycle" in wc && "generator" in wc && "params" in wc && wc["params"].Table?
    ensures r == Err(AttributeError) <==> "max_reqs_cycle" in wc && "generator" in wc && "params" in wc && wc["params"].Text?
    ensures r.Ok? ==> r.value.Keys == FixedParams + set k | k in wc["params"].table :: ParamPrefix + k
    ensures r.Ok? ==> r.value["clock"] == Text(clock) && r.value["generator"] == wc["generator"]
                      && r.value["max_reqs_cycle"] == wc["max_reqs_cycle"]
    ensures r.Ok? ==> forall k :: k in wc["params"].table ==> r.value[ParamPrefix + k] == Text(wc["params"].table[k])
  {
    if "max_reqs_cycle" !in wc || "generator" !in wc || "params" !in wc then Err(KeyError)
    else match wc["params"]
      case Text(_) => Err(AttributeError)
      case Table(params) =>
        var fixed := map["verbose" := Text("1"), "printStats" := Text("1"), "clock" := Text(clock),
                         "max_reqs_cycle" := wc["max_reqs_cycle"], "generator" := wc["generator"]];
        var extra := Prefixed(params);
        PrefixedAvoidsFixed(params);
        Ok(fixed + extra)
  }

  /**
   * The parameters node `id` of an X-by-Y grid gets: the entry of its core
   * type (KeyError when missing), its CPU parameters, and, when the build is
   * verbose, the entry's "description" (KeyError when missing).
   */
  function NodeParams(X: nat, Y: nat, cfgs: map<string, Config>, clock: string, verbose: bool, id: nat)
    : Result<map<string, Value>, Error>
    requires X > 0
  {
    var name := CoreTypeName(DetermineCoreType(X, Y, id));
    if name !in cfgs then Err(KeyError)
    else match CpuParams(clock, cfgs[name])
      case Err(e) => Err(e)
      case Ok(p) => if verbose && "description" !in cfgs[name] then Err(KeyError) else Ok(p)
  }

  /** Every core type has an entry from which a CPU can be built, with a description. */
  predicate CoreEntriesOk(cfgs: map<string, Config>)
  {
    forall k: CoreClass :: CoreTypeName(k) in cfgs && CpuParams("", cfgs[CoreTypeName(k)]).Ok?
                           && "description" in cfgs[CoreTypeName(k)]
  }

  /**
   * The summary a verbose build prints reads the "description" of every
   * entry; the deprecated copy skips the per-node "node_" entries.
   */
  predicate SummaryReadable(e: Edition, cfgs: map<string, Config>)
  {
    forall t :: t in cfgs && !(e == Deprecated && StartsWith(t, "node_")) ==> "description" in cfgs[t]
  }

  /** With sound core entries every node builds, whatever the clock and verbosity. */
  lemma CoreEntriesBuild(X: nat, Y: nat, cfgs: map<string, Config>, clock: string, verbose: bool, id: nat)
    requires X > 0 && CoreEntriesOk(cfgs)
    ensures NodeParams(X, Y, cfgs, clock, verbose, id).Ok?
  {
    var k := DetermineCoreType(X, Y, id);
    assert CpuParams("", cfgs[CoreTypeName(k)]).Ok?;
  }

  lemma DefaultEntryLookup(e: Edition, k: CoreClass)
    ensures CoreTypeName(k) in DefaultWorkloadConfigs(e)
    ensures DefaultWorkloadConfigs(e)[CoreTypeName(k)] == DefaultEntry(e, k)
  {
    KeysDistinct();
    CoreTableLookup(DefaultEntries(e), k);
    assert CoreTypeName(k) != "network_test";
  }

  lemma CoreTableLookup(entry: CoreClass -> Config, k: CoreClass)
    ensures CoreTypeName(k) in CoreTable(entry) && CoreTable(entry)[CoreTypeName(k)] == entry(k)
  {
    KeysDistinct();
  }

  /** The five default keys are pairwise different (by length, or by first letter for the two of length 12). */
  lemma KeysDistinct()
    ensures |"master_core"| == 11 && |"memory_controller"| == 17 && |"io_core"| == 7
    ensures |"compute_core"| == 12 && |"network_test"| == 12 && "compute_core"[0] != "network_test"[0]
  {
  }

  lemma DefaultEntrySound(e: Edition, k: CoreClass)
    ensures CpuParams("", DefaultEntry(e, k)).Ok? && "description" in DefaultEntry(e, k)
  {
    var c := DefaultEntry(e, k);
    assert "generator" in c && "max_reqs_cycle" in c && "params" in c && c["params"].Table?;
  }

  /** The default table of either copy has a sound entry for every core type. */
  lemma DefaultsCoreEntriesOk(e: Edition)
    ensures CoreEntriesOk(DefaultWorkloadConfigs(e))
  {
    var d := DefaultWorkloadConfigs(e);
    forall k: CoreClass
      ensures CoreTypeName(k) in d && CpuParams("", d[CoreTypeName(k)]).Ok? && "description" in d[CoreTypeName(k)]
    {
      DefaultEntryLookup(e, k);
      DefaultEntrySound(e, k);
    }
  }

  /** Every default entry has a description, so a verbose build can print its summary. */
  lemma DefaultsSummaryReadable(e: Edition)
    ensures SummaryReadable(e, DefaultWorkloadConfigs(e))
  {
    var entry := DefaultEntries(e);
    forall k: CoreClass
      ensures "description" in entry(k)
    {
      DefaultEntrySound(e, k);
    }
    CoreTableDescribed(entry);
    assert "description" in NetworkTestEntry();
  }

  lemma CoreTableDescribed(entry: CoreClass -> Config)
    requires forall k :: "description" in entry(k)
    ensures forall t :: t in CoreTable(entry) ==> "description" in CoreTable(entry)[t]
  {
  }

  /** Merging an entry whose "params", if any, is a table keeps the core entries sound. */
  lemma SetWorkloadConfigKeepsCoreEntries(cfgs: map<string, Config>, t: string, config: Config)
    requires CoreEntriesOk(cfgs)
    requires "params" in config ==> config["params"].Table?
    ensures CoreEntriesOk(SetWorkloadConfig(cfgs, t, config))
  {
    var r := SetWorkloadConfig(cfgs, t, config);
    forall k: CoreClass
      ensures CoreTypeName(k) in r && CpuParams("", r[CoreTypeName(k)]).Ok? && "description" in r[CoreTypeName(k)]
    {
      assert CpuParams("", cfgs[CoreTypeName(k)]).Ok?;
    }
  }

  /**
   * Merging into an existing entry, or inserting one with a "description"
   * (or, in the deprecated copy, a per-node entry), keeps the summary readable.
   */
  lemma SetWorkloadConfigKeepsSummary(e: Edition, cfgs: map<string, Config>, t: string, config: Config)
    requires SummaryReadable(e, cfgs)
    requires "description" in config || t in cfgs || (e == Deprecated && StartsWith(t, "node_"))
    ensures SummaryReadable(e, SetWorkloadConfig(cfgs, t, config))
  {
  }

  /**
   * Per-node "node_" entries are never read when a CPU is built: the
   * parameters of every node are the same before and after such an entry
   * is merged.
   */
  lemma NodeEntriesIgnored(X: nat, Y: nat, cfgs: map<string, Config>, clock: string, verbose: bool, id: nat,
                           t: string, config: Config)
    requires X > 0 && StartsWith(t, "node_")
    ensures NodeParams(X, Y, SetWorkloadConfig(cfgs, t, config), clock, verbose, id) == NodeParams(X, Y, cfgs, clock, verbose, id)
  {
    var k := DetermineCoreType(X, Y, id);
    var r := SetWorkloadConfig(cfgs, t, config);
    assert CoreTypeName(k) != t by {
      assert t[0] == 'n';
      assert CoreTypeName(k)[0] != 'n';
    }
    assert (CoreTypeName(k) in r) == (CoreTypeName(k) in cfgs);
    if CoreTypeName(k) in cfgs {
      assert r[CoreTypeName(k)] == cfgs[CoreTypeName(k)];
    }
  }
}

/**
 * The network side of the deprecated builder: the 1 MiB address window of
 * each node, the per-node "node_{i}" workload entries written by
 * `set_node_communication_pattern` and `enable_all_to_all_communication`,
 * and the intended window of a communication pattern (see
 * CommWindowMissesTarget).
 */
module MirandaComm {
  import opened Wrappers
  import opened StatNames
  import opened MirandaConfig

  /** The size of a node's network address window (1 MiB). */
  const Window: nat := 0x100000

  /**
   * `get_node_address_range`: ids at or beyond the node count raise
   * ValueError; otherwise node `id` owns the 1 MiB window that starts
   * (id + 1) MiB in, the first MiB being local memory.  A negative id passes
   * the check, as in the source.
   */
  function NodeAddressRange(total: nat, id: int): (r: Result<(int, int), Error>)
    ensures r.Err? <==> id >= total
    ensures r.Err? ==> r.error == ValueError
    ensures r.Ok? ==> r.value.1 - r.value.0 == Window - 1
    ensures r.Ok? && id >= 0 ==> r.value.0 >= Window
  {
    if id >= total then Err(ValueError)
    else
      var start := Window + id * Window;
      Ok((start, start + Window - 1))
  }

  /** The window of node a + 1 starts right after the window of node a ends. */
  lemma AddressWindowsAdjacent(total: nat, a: int)
    requires a + 1 < total
    ensures NodeAddressRange(total, a).Ok? && NodeAddressRange(total, a + 1).Ok?
    ensures NodeAddressRange(total, a).value.1 + 1 == NodeAddressRange(total, a + 1).value.0
  {
  }

  /** The windows of two different nodes do not overlap. */
  lemma {:induction false} AddressWindowsDisjoint(total: nat, a: int, b: int)
    requires a < b < total
    ensures NodeAddressRange(total, a).value.1 < NodeAddressRange(total, b).value.0
  {
    assert (b - a) * Window >= Window by {
      assert b - a >= 1;
    }
    assert Window + b * Window == Window + a * Window + (b - a) * Window;
  }

  // ---------------------------------------------------------------------
  // Formatting helpers: str() of an int and of a list of ints
  // ---------------------------------------------------------------------

  /** `str(i)` for any integer. */
  function IntStr(i: int): string
  {
    if i < 0 then "-" + NatStr(-i) else NatStr(i)
  }

  function JoinInts(s: seq<int>): string
  {
    if |s| == 0 then "" else if |s| == 1 then IntStr(s[0]) else IntStr(s[0]) + ", " + JoinInts(s[1..])
  }

  /** `str(list)`: "[a, b, c]". */
  function ListStr(s: seq<int>): string
  {
    "[" + JoinInts(s) + "]"
  }

  /** `s.replace(c, "")`: every occurrence of c removed, the other characters kept in order. */
  function RemoveChar(s: string, c: char): (r: string)
    ensures |r| <= |s|
    ensures forall ch :: ch in r <==> ch in s && ch != c
    ensures c !in s ==> r == s
  {
    if |s| == 0 then ""
    else if s[0] == c then RemoveChar(s[1..], c)
    else [s[0]] + RemoveChar(s[1..], c)
  }

  /** The key of node i's entry, "node_{i}". */
  function NodeEntryKey(i: int): string
  {
    "node_" + IntStr(i)
  }

  /** `str(i)` starts with a minus sign exactly for negative i. */
  lemma IntStrSign(i: int)
    ensures |IntStr(i)| >= 1
    ensures IntStr(i)[0] == '-' <==> i < 0
  {
    if i >= 0 {
      NatStrDigits(i);
    }
  }

  /** Different node ids get different entry keys, all starting with "node_". */
  lemma NodeEntryKeyInjective(i: int, j: int)
    ensures StartsWith(NodeEntryKey(i), "node_")
    ensures NodeEntryKey(i) == NodeEntryKey(j) ==> i == j
  {
    var a, b := NodeEntryKey(i), NodeEntryKey(j);
    assert a[..5] == "node_";
    if a == b {
      assert IntStr(i) == a[5..] && IntStr(j) == b[5..];
      IntStrSign(i);
      IntStrSign(j);
      if i < 0 {
        assert NatStr(-i) == IntStr(i)[1..] && NatStr(-j) == IntStr(j)[1..];
        NatStrInjective(-i, -j);
      } else {
        NatStrInjective(i, j);
      }
    }
  }

  // ---------------------------------------------------------------------
  // Minimum and maximum of the target list
  // ---------------------------------------------------------------------

  function SeqMax(s: seq<int>): int
    requires |s| > 0
  {
    if |s| == 1 then s[0] else var m := SeqMax(s[1..]); if s[0] >= m then s[0] else m
  }

  function SeqMin(s: seq<int>): int
    requires |s| > 0
  {
    if |s| == 1 then s[0] else var m := SeqMin(s[1..]); if s[0] <= m then s[0] else m
  }

  /** `max` and `min` of a non-empty list are elements of it and bound every element. */
  lemma {:induction false} SeqBounds(s: seq<int>)
    requires |s| > 0
    ensures SeqMax(s) in s && SeqMin(s) in s
    ensures forall x :: x in s ==> SeqMin(s) <= x <= SeqMax(s)
  {
    if |s| > 1 {
      SeqBounds(s[1..]);
      assert s == [s[0]] + s[1..];
    }
  }

  // ---------------------------------------------------------------------
  // set_node_communication_pattern
  // ---------------------------------------------------------------------

  /**
   * The address window a pattern entry gives the generator, as written: from
   * min(targets) MiB to the end of the max(targets)-th MiB.
   */
  function CommWindow(targets: seq<int>): (int, int)
    requires |targets| > 0
  {
    (SeqMin(targets) * Window, SeqMax(targets) * Window + Window - 1)
  }

  /** The workload entry `set_node_communication_pattern` builds. */
  function CommEntry(source: int, targets: seq<int>, messageSize: string, messageCount: int): Config
    requires |targets| > 0
  {
    var (lo, hi) := CommWindow(targets);
    map["generator" := Text("miranda.RandomGenerator"), "max_reqs_cycle" := Text("2"),
        "params" := Table(map["verbose" := "1", "count" := IntStr(messageCount), "max_address" := IntStr(hi),
                              "min_address" := IntStr(lo), "length" := RemoveChar(messageSize, 'B')]),
        "description" := Text("节点" + IntStr(source) + "到节点" + ListStr(targets) + "的通信测试")]
  }

  /** Some target lies at or beyond the node count. */
  predicate SomeTargetOutOfRange(total: nat, targets: seq<int>)
  {
    exists i :: 0 <= i < |targets| && targets[i] >= total
  }

  /**
   * `set_node_communication_pattern`: ValueError when the source or any
   * target is at or beyond the node count, or (from `max` of an empty list)
   * when there is no target; otherwise the entry "node_{source}" is merged in.
   */
  function CommPattern(cfgs: map<string, Config>, total: nat, source: int, targets: seq<int>,
                       messageSize: string, messageCount: int): (r: Result<map<string, Config>, Error>)
    ensures r.Err? <==> source >= total || SomeTargetOutOfRange(total, targets) || |targets| == 0
    ensures r.Err? ==> r.error == ValueError
    ensures r.Ok? ==> r.value == SetWorkloadConfig(cfgs, NodeEntryKey(source), CommEntry(source, targets, messageSize, messageCount))
  {
    if source >= total || SomeTargetOutOfRange(total, targets) || |targets| == 0 then Err(ValueError)
    else Ok(SetWorkloadConfig(cfgs, NodeEntryKey(source), CommEntry(source, targets, messageSize, messageCount)))
  }

  /** The window of a pattern covers the id-th MiB of every target id. */
  lemma CommWindowCoversTargets(targets: seq<int>)
    requires |targets| > 0
    ensures forall t :: t in targets ==> CommWindow(targets).0 <= t * Window && t * Window + Window - 1 <= CommWindow(targets).1
  {
    SeqBounds(targets);
    forall t | t in targets
      ensures CommWindow(targets).0 <= t * Window && t * Window + Window - 1 <= CommWindow(targets).1
    {
      assert SeqMin(targets) * Window <= t * Window;
      assert t * Window <= SeqMax(targets) * Window;
    }
  }

  /**
   * As written, a pattern with the single target t addresses the t-th MiB,
   * which lies wholly below t's own window from `get_node_address_range`
   * (for t = 0 it is the local memory the all-to-all entries skip).
   */
  lemma CommWindowMissesTarget(total: nat, t: nat)
    requires t < total
    ensures NodeAddressRange(total, t).Ok?
    ensures CommWindow([t]).1 < NodeAddressRange(total, t).value.0
  {
  }

  /** The window a pattern was evidently meant to address: from the first target's window to the end of the last's. */
  function IntendedCommWindow(targets: seq<int>): (int, int)
    requires |targets| > 0
  {
    (Window + SeqMin(targets) * Window, Window + SeqMax(targets) * Window + Window - 1)
  }

  /** The intended window contains the window of every target. */
  lemma IntendedCommWindowCovers(total: nat, targets: seq<int>)
    requires |targets| > 0 && !SomeTargetOutOfRange(total, targets)
    ensures forall t :: t in targets ==> (NodeAddressRange(total, t).Ok?
              && IntendedCommWindow(targets).0 <= NodeAddressRange(total, t).value.0
              && NodeAddressRange(total, t).value.1 <= IntendedCommWindow(targets).1)
  {
    SeqBounds(targets);
    forall t | t in targets
      ensures NodeAddressRange(total, t).Ok?
              && IntendedCommWindow(targets).0 <= NodeAddressRange(total, t).value.0
              && NodeAddressRange(total, t).value.1 <= IntendedCommWindow(targets).1
    {
      var i :| 0 <= i < |targets| && targets[i] == t;
      assert SeqMin(targets) * Window <= t * Window;
      assert t * Window <= SeqMax(targets) * Window;
    }
  }

  // ---------------------------------------------------------------------
  // enable_all_to_all_communication
  // ---------------------------------------------------------------------

  /** (max_reqs_cycle, count) per message density; an unknown density falls back to "low". */
  function DensityParams(density: string): (string, string)
  {
    if density == "medium" then ("2", "1000")
    else if density == "high" then ("4", "2000")
    else ("1", "500")
  }

  /** Node i's all-to-all entry: random accesses from 1 MiB to the end of the (total)-th MiB. */
  function AllToAllEntry(total: nat, i: nat, density: string): Config
  {
    var (reqs, count) := DensityParams(density);
    map["generator" := Text("miranda.RandomGenerator"), "max_reqs_cycle" := Text(reqs),
        "params" := Table(map["verbose" := "1", "count" := count, "max_address" := IntStr(total * Window - 1),
                              "min_address" := "1048576", "length" := "64"]),
        "description" := Text("节点" + IntStr(i) + "全对全通信(" + density + "密度)")]
  }

  /** The all-to-all entry of every node. */
  function AllToAllEntries(total: nat, density: string): nat -> Config
  {
    (i: nat) => AllToAllEntry(total, i, density)
  }

  /** The entry the ring pattern gives node i: a pattern whose only target is the next node, (i + 1) % total. */
  function RingEntries(total: nat): nat -> Config
    requires total > 0
  {
    (i: nat) => CommEntry(i, [(i + 1) % total], "64B", 1000)
  }

  /** The table after a loop has merged entry(i) under "node_{i}" for each i below n, in order. */
  function NodeEntries(cfgs: map<string, Config>, entry: nat -> Config, n: nat): map<string, Config>
  {
    if n == 0 then cfgs else SetWorkloadConfig(NodeEntries(cfgs, entry, n - 1), NodeEntryKey(n - 1), entry(n - 1))
  }

  /** An entry merged onto the old one, or inserted when there was none. */
  function Merged(cfgs: map<string, Config>, t: string, config: Config): Config
  {
    (if t in cfgs then cfgs[t] else map[]) + config
  }

  /** Such a loop adds exactly the keys "node_{i}" for i below n. */
  lemma {:induction false} NodeEntriesKeys(cfgs: map<string, Config>, entry: nat -> Config, n: nat)
    ensures NodeEntries(cfgs, entry, n).Keys == cfgs.Keys + set i | 0 <= i < n :: NodeEntryKey(i)
  {
    if n > 0 {
      NodeEntriesKeys(cfgs, entry, n - 1);
      var prev := NodeEntries(cfgs, entry, n - 1);
      assert NodeEntries(cfgs, entry, n) == SetWorkloadConfig(prev, NodeEntryKey(n - 1), entry(n - 1));
      assert NodeEntries(cfgs, entry, n).Keys == prev.Keys + {NodeEntryKey(n - 1)};
      NodeKeysStep(n - 1);
    }
  }

  lemma NodeKeysStep(n: nat)
    ensures (set i | 0 <= i < n + 1 :: NodeEntryKey(i)) == (set i | 0 <= i < n :: NodeEntryKey(i)) + {NodeEntryKey(n)}
  {
  }

  /** Entries other than "node_{i}" for i below n are left as they were. */
  lemma {:induction false} NodeEntriesOthers(cfgs: map<string, Config>, entry: nat -> Config, n: nat, t: string)
    requires t in cfgs && forall i :: 0 <= i < n ==> t != NodeEntryKey(i)
    ensures t in NodeEntries(cfgs, entry, n) && NodeEntries(cfgs, entry, n)[t] == cfgs[t]
  {
    if n > 0 {
      NodeEntriesOthers(cfgs, entry, n - 1, t);
    }
  }

  /** Node i's entry, for i below n, is entry(i) merged onto the old one: exactly one write per node. */
  lemma {:induction false} NodeEntriesAt(cfgs: map<string, Config>, entry: nat -> Config, n: nat, i: nat)
    requires i < n
    ensures NodeEntryKey(i) in NodeEntries(cfgs, entry, n)
    ensures NodeEntries(cfgs, entry, n)[NodeEntryKey(i)] == Merged(cfgs, NodeEntryKey(i), entry(i))
  {
    var k := NodeEntryKey(i);
    var prev := NodeEntries(cfgs, entry, n - 1);
    assert NodeEntries(cfgs, entry, n) == SetWorkloadConfig(prev, NodeEntryKey(n - 1), entry(n - 1));
    if i == n - 1 {
      NodeEntryFresh(cfgs, entry, i);
      if k in cfgs {
        assert NodeEntries(cfgs, entry, n)[k] == prev[k] + entry(i);
      } else {
        assert NodeEntries(cfgs, entry, n)[k] == entry(i);
      }
    } else {
      NodeEntriesAt(cfgs, entry, n - 1, i);
      NodeEntryKeyInjective(i, n - 1);
      assert NodeEntries(cfgs, entry, n)[k] == prev[k];
    }
  }

  /** Before the loop reaches node i, its entry is still the old one (or absent). */
  lemma NodeEntryFresh(cfgs: map<string, Config>, entry: nat -> Config, i: nat)
    ensures NodeEntryKey(i) in NodeEntries(cfgs, entry, i) <==> NodeEntryKey(i) in cfgs
    ensures NodeEntryKey(i) in cfgs ==> NodeEntries(cfgs, entry, i)[NodeEntryKey(i)] == cfgs[NodeEntryKey(i)]
  {
    var k := NodeEntryKey(i);
    forall j | 0 <= j < i
      ensures k != NodeEntryKey(j)
    {
      NodeEntryKeyInjective(i, j);
    }
    if k in cfgs {
      NodeEntriesOthers(cfgs, entry, i, k);
    } else {
      NodeEntriesKeys(cfgs, entry, i);
    }
  }

  /** The entry's generator draws addresses from lo to hi. */
  predicate AddressesWindow(c: Config, lo: int, hi: int)
  {
    && "params" in c && c["params"].Table?
    && "min_address" in c["params"].table && c["params"].table["min_address"] == IntStr(lo)
    && "max_address" in c["params"].table && c["params"].table["max_address"] == IntStr(hi)
  }

  lemma CommEntryWindow(source: int, targets: seq<int>, messageSize: string, messageCount: int)
    requires |targets| > 0
    ensures AddressesWindow(CommEntry(source, targets, messageSize, messageCount), CommWindow(targets).0, CommWindow(targets).1)
  {
  }

  /** In the ring pattern node i's generator addresses the window of node (i + 1) % total, as written. */
  lemma RingTargetsNext(cfgs: map<string, Config>, total: nat, i: nat)
    requires i < total
    ensures NodeEntryKey(i) in NodeEntries(cfgs, RingEntries(total), total)
    ensures AddressesWindow(NodeEntries(cfgs, RingEntries(total), total)[NodeEntryKey(i)],
                            ((i + 1) % total) * Window, ((i + 1) % total) * Window + Window - 1)
  {
    var j := (i + 1) % total;
    assert RingEntries(total)(i) == CommEntry(i, [j], "64B", 1000);
    CommEntryWindow(i, [j], "64B", 1000);
    CommWindowSingle(j);
    NodeEntriesWindow(cfgs, RingEntries(total), total, i, j * Window, j * Window + Window - 1);
  }

  lemma CommWindowSingle(t: int)
    ensures CommWindow([t]) == (t * Window, t * Window + Window - 1)
  {
    assert SeqMin([t]) == t && SeqMax([t]) == t;
  }

  /** A loop-written entry keeps the address window of the entry the loop merged in. */
  lemma NodeEntriesWindow(cfgs: map<string, Config>, entry: nat -> Config, n: nat, i: nat, lo: int, hi: int)
    requires i < n && AddressesWindow(entry(i), lo, hi)
    ensures NodeEntryKey(i) in NodeEntries(cfgs, entry, n)
    ensures AddressesWindow(NodeEntries(cfgs, entry, n)[NodeEntryKey(i)], lo, hi)
  {
    NodeEntriesAt(cfgs, entry, n, i);
    MergedWindow(cfgs, NodeEntryKey(i), entry(i), lo, hi);
  }

  /** Merging keeps the address window of the merged-in entry. */
  lemma MergedWindow(cfgs: map<string, Config>, t: string, c: Config, lo: int, hi: int)
    requires AddressesWindow(c, lo, hi)
    ensures AddressesWindow(Merged(cfgs, t, c), lo, hi)
  {
    assert Merged(cfgs, t, c)["params"] == c["params"];
  }

  /** One step of the ring loop: node i's pattern is accepted and merges the ring entry of node i. */
  lemma RingStep(cfgs: map<string, Config>, total: nat, i: nat)
    requires i < total
    ensures CommPattern(cfgs, total, i, [(i + 1) % total], "64B", 1000)
            == Ok(SetWorkloadConfig(cfgs, NodeEntryKey(i), RingEntries(total)(i)))
  {
    assert !SomeTargetOutOfRange(total, [(i + 1) % total]);
  }

  /** An unknown density is treated as "low". */
  lemma DensityFallback(density: string)
    requires density != "low" && density != "medium" && density != "high"
    ensures DensityParams(density) == DensityParams("low")
  {
  }
}
