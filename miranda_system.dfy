/**
 * The SST system builder `MirandaCPUMeshSystem` (both copies): one router,
 * one Miranda CPU, one L1 cache and one local memory controller per node of
 * an X-by-Y mesh, the router mesh links, and the flags that make building and
 * statistics configuration happen once.  The SST calls themselves are
 * abstracted: a created component is recorded as its name, its SST type and,
 * for CPUs, the parameter dictionary it receives.
 */
module MirandaSystem {
  import opened Wrappers
  import opened StatNames
  import opened CoreTypes
  import opened MeshLinks
  import opened MirandaConfig
  import opened MirandaComm

  /** A created SST component. */
  datatype Component = Component(name: string, componentType: string, params: map<string, Value>)

  function RouterOf(i: nat): Component
  {
    Component("router_" + NatStr(i), "merlin.hr_router", map[])
  }

  function CpuOf(i: nat, params: map<string, Value>): Component
  {
    Component("cpu_" + NatStr(i), "miranda.BaseCPU", params)
  }

  function L1CacheOf(i: nat): Component
  {
    Component("l1cache_" + NatStr(i), "memHierarchy.Cache", map[])
  }

  function MemCtrlOf(i: nat): Component
  {
    Component("local_mem_ctrl_" + NatStr(i), "memHierarchy.MemController", map[])
  }

  /** What building one node's CPU yields: its parameter dictionary or the exception raised. */
  type Built = Result<map<string, Value>, Error>

  /**
   * The CPU parameters of every node id under one configuration; mapping an
   * id to a position divides by X, so an empty row raises ZeroDivisionError.
   */
  function CpuParamsOf(X: nat, Y: nat, cfgs: map<string, Config>, clock: string, verbose: bool): nat -> Built
  {
    (i: nat) => if X == 0 then Err(ZeroDivisionError) else NodeParams(X, Y, cfgs, clock, verbose, i)
  }

  /** Every node below n gets its CPU parameters without an exception. */
  predicate AllBuild(p: nat -> Built, n: nat)
  {
    forall i :: 0 <= i < n ==> p(i).Ok?
  }

  lemma AllBuildStep(p: nat -> Built, n: nat)
    requires AllBuild(p, n) && p(n).Ok?
    ensures AllBuild(p, n + 1)
  {
  }

  /** The first node whose CPU cannot be built. */
  function FirstFailure(p: nat -> Built, n: nat): (r: nat)
    requires !AllBuild(p, n)
    ensures r < n && p(r).Err?
    ensures AllBuild(p, r)
  {
    if !AllBuild(p, n - 1) then FirstFailure(p, n - 1) else n - 1
  }

  /** The routers, caches and memory controllers of the first n nodes, in id order. */
  function Routers(n: nat): seq<Component>
  {
    if n == 0 then [] else Routers(n - 1) + [RouterOf(n - 1)]
  }

  function L1Caches(n: nat): seq<Component>
  {
    if n == 0 then [] else L1Caches(n - 1) + [L1CacheOf(n - 1)]
  }

  function MemCtrls(n: nat): seq<Component>
  {
    if n == 0 then [] else MemCtrls(n - 1) + [MemCtrlOf(n - 1)]
  }

  /** The CPUs of the first n nodes, each with the parameters its node builds. */
  function Cpus(p: nat -> Built, n: nat): seq<Component>
    requires AllBuild(p, n)
  {
    if n == 0 then [] else Cpus(p, n - 1) + [CpuOf(n - 1, p(n - 1).value)]
  }

  /** A node that fails after all nodes before it built is the first failure. */
  lemma {:induction false} FirstFailureIs(p: nat -> Built, n: nat, i: nat)
    requires i < n && AllBuild(p, i) && p(i).Err?
    ensures !AllBuild(p, n)
    ensures FirstFailure(p, n) == i
  {
    if n - 1 > i {
      FirstFailureIs(p, n - 1, i);
    } else {
      assert AllBuild(p, n - 1);
    }
  }

  /** Component i of each list belongs to node i, and each list has one component per node. */
  lemma {:induction false} ComponentLists(p: nat -> Built, n: nat)
    requires AllBuild(p, n)
    ensures |Routers(n)| == n && |Cpus(p, n)| == n && |L1Caches(n)| == n && |MemCtrls(n)| == n
    ensures forall i :: 0 <= i < n ==> Routers(n)[i] == RouterOf(i) && L1Caches(n)[i] == L1CacheOf(i) && MemCtrls(n)[i] == MemCtrlOf(i)
    ensures forall i :: 0 <= i < n ==> Cpus(p, n)[i] == CpuOf(i, p(i).value)
  {
    if n > 0 {
      ComponentLists(p, n - 1);
    }
  }

  /** Sound core entries let every node of the mesh build. */
  lemma CoreEntriesAllBuild(X: nat, Y: nat, cfgs: map<string, Config>, clock: string, verbose: bool, n: nat)
    requires CoreEntriesOk(cfgs) && n <= X * Y
    ensures AllBuild(CpuParamsOf(X, Y, cfgs, clock, verbose), n)
  {
    var p := CpuParamsOf(X, Y, cfgs, clock, verbose);
    forall i | 0 <= i < n
      ensures p(i).Ok?
    {
      assert X > 0;
      CoreEntriesBuild(X, Y, cfgs, clock, verbose, i);
    }
  }

  /** What `get_system_info` reports. */
  datatype SystemInfo = SystemInfo(meshSize: (nat, nat), totalNodes: nat, linkBandwidth: string, linkLatency: string,
                                   cpuClock: string, cacheSize: string, memorySize: string, outputDir: string,
                                   systemBuilt: bool, statisticsConfigured: bool, workloadConfigs: map<string, Config>)

  class MirandaCPUMeshSystem {
    const edition: Edition
    const meshSizeX: nat
    const meshSizeY: nat
    const totalNodes: nat
    const linkBandwidth: string
    const linkLatency: string
    const cpuClock: string
    const cacheSize: string
    const memorySize: string
    const outputDir: string
    const verbose: bool

    var routers: seq<Component>
    var cpuCores: seq<Component>
    var l1Caches: seq<Component>
    var memoryControllers: seq<Component>
    var workloadConfigs: map<string, Config>
    var systemBuilt: bool
    var statisticsConfigured: bool

    /** The CPU parameters each node builds under the current workload table. */
    function Params(): nat -> Built
      reads this
    {
      CpuParamsOf(meshSizeX, meshSizeY, workloadConfigs, cpuClock, verbose)
    }

    /** The node count is the product of the mesh sizes. */
    predicate Valid()
    {
      totalNodes == meshSizeX * meshSizeY
    }

    /** `__init__`: no components, the default workload table, both flags false. */
    constructor(edition: Edition, meshSizeX: nat := 4, meshSizeY: nat := 4, linkBandwidth: string := "40GiB/s",
                linkLatency: string := "50ps", cpuClock: string := "2.4GHz", cacheSize: string := "32KiB",
                memorySize: string := "128MiB", outputDir: string := "/home/anarchy/SST/sst_output_data",
                verbose: bool := true)
      ensures Valid()
      ensures this.edition == edition && this.meshSizeX == meshSizeX && this.meshSizeY == meshSizeY
      ensures this.linkBandwidth == linkBandwidth && this.linkLatency == linkLatency && this.cpuClock == cpuClock
      ensures this.cacheSize == cacheSize && this.memorySize == memorySize && this.outputDir == outputDir
      ensures this.verbose == verbose
      ensures routers == [] && cpuCores == [] && l1Caches == [] && memoryControllers == []
      ensures workloadConfigs == DefaultWorkloadConfigs(edition)
      ensures !systemBuilt && !statisticsConfigured
    {
      this.edition := edition;
      this.meshSizeX := meshSizeX;
      this.meshSizeY := meshSizeY;
      this.totalNodes := meshSizeX * meshSizeY;
      this.linkBandwidth := linkBandwidth;
      this.linkLatency := linkLatency;
      this.cpuClock := cpuClock;
      this.cacheSize := cacheSize;
      this.memorySize := memorySize;
      this.outputDir := outputDir;
      this.verbose := verbose;
      routers, cpuCores, l1Caches, memoryControllers := [], [], [], [];
      workloadConfigs := DefaultWorkloadConfigs(edition);
      systemBuilt, statisticsConfigured := false, false;
    }

    /** `set_workload_config`, in place. */
    method SetWorkloadConfig(coreType: string, config: Config)
      modifies this
      ensures workloadConfigs == MirandaConfig.SetWorkloadConfig(old(workloadConfigs), coreType, config)
      ensures routers == old(routers) && cpuCores == old(cpuCores) && l1Caches == old(l1Caches)
      ensures memoryControllers == old(memoryControllers)
      ensures systemBuilt == old(systemBuilt) && statisticsConfigured == old(statisticsConfigured)
    {
      workloadConfigs := MirandaConfig.SetWorkloadConfig(workloadConfigs, coreType, config);
    }

    /**
     * `build_system`.  Already built: nothing changes.  Otherwise the four
     * lists are refilled node by node (CreateNodes); when that stops at a
     * node whose CPU cannot be built, the exception propagates and the flag
     * stays false.  Otherwise the links are created and the flag is set; a
     * verbose build then prints the summary, which raises KeyError (with the
     * flag already set) when an entry it prints has no description.
     */
    method BuildSystem() returns (r: Result<(), Error>)
      requires Valid()
      modifies this
      ensures workloadConfigs == old(workloadConfigs) && statisticsConfigured == old(statisticsConfigured)
      ensures old(systemBuilt) ==> r.Ok? && systemBuilt && routers == old(routers) && cpuCores == old(cpuCores)
                                   && l1Caches == old(l1Caches) && memoryControllers == old(memoryControllers)
      ensures !old(systemBuilt) ==> NodesCreated(r.Err? && !systemBuilt)
      ensures !old(systemBuilt) ==> (systemBuilt <==> AllBuild(Params(), totalNodes))
      ensures !old(systemBuilt) && systemBuilt ==>
                && |routers| == |cpuCores| == |l1Caches| == |memoryControllers| == totalNodes
                && (r.Err? <==> verbose && !SummaryReadable(edition, workloadConfigs))
                && (r.Err? ==> r.error == KeyError)
    {
      if systemBuilt {
        return Ok(());
      }
      r := CreateNodes();
      if r.Err? {
        return r;
      }
      ComponentLists(Params(), totalNodes);
      var links, linkCount := BuildMeshNetwork(meshSizeX, meshSizeY);
      systemBuilt := true;
      if verbose && !SummaryReadable(edition, workloadConfigs) {
        return Err(KeyError);
      }
      return Ok(());
    }

    /**
     * The lists after the node loop of `build_system`: one component of each
     * kind per node when every node builds; otherwise, when the loop stopped
     * at the first failing node f with that node's exception, the components
     * of the nodes before f plus f's router.
     */
    ghost predicate NodesCreated(failed: bool)
      reads this
    {
      var p := Params();
      if !failed then
        && AllBuild(p, totalNodes)
        && routers == Routers(totalNodes) && l1Caches == L1Caches(totalNodes) && memoryControllers == MemCtrls(totalNodes)
        && cpuCores == Cpus(p, totalNodes)
      else
        && !AllBuild(p, totalNodes)
        && var f := FirstFailure(p, totalNodes);
        && routers == Routers(f + 1) && l1Caches == L1Caches(f) && memoryControllers == MemCtrls(f)
        && cpuCores == Cpus(p, f)
    }

    /** The node loop of `build_system`: clears the four lists and creates each node's components in id order. */
    method CreateNodes() returns (r: Result<(), Error>)
      requires Valid()
      modifies this
      ensures workloadConfigs == old(workloadConfigs) && statisticsConfigured == old(statisticsConfigured)
      ensures systemBuilt == old(systemBuilt)
      ensures NodesCreated(r.Err?)
      ensures r.Err? ==> r.error == Params()(FirstFailure(Params(), totalNodes)).error
    {
      routers, cpuCores, l1Caches, memoryControllers := [], [], [], [];
      var p := Params();
      for i := 0 to totalNodes
        invariant p == Params()
        invariant AllBuild(p, i)
        invariant routers == Routers(i) && l1Caches == L1Caches(i) && memoryControllers == MemCtrls(i)
        invariant cpuCores == Cpus(p, i)
        invariant workloadConfigs == old(workloadConfigs) && statisticsConfigured == old(statisticsConfigured)
        invariant systemBuilt == old(systemBuilt)
      {
        routers := routers + [RouterOf(i)];
        var params := p(i);
        if params.Err? {
          FirstFailureIs(p, totalNodes, i);
          return Err(params.error);
        }
        AllBuildStep(p, i);
        cpuCores := cpuCores + [CpuOf(i, params.value)];
        l1Caches := l1Caches + [L1CacheOf(i)];
        memoryControllers := memoryControllers + [MemCtrlOf(i)];
      }
      return Ok(());
    }

    /** `configure_statistics`: sets the flag the first time, does nothing afterwards. */
    method ConfigureStatistics()
      modifies this
      ensures statisticsConfigured
      ensures routers == old(routers) && cpuCores == old(cpuCores) && l1Caches == old(l1Caches)
      ensures memoryControllers == old(memoryControllers)
      ensures workloadConfigs == old(workloadConfigs) && systemBuilt == old(systemBuilt)
    {
      if statisticsConfigured {
        return;
      }
      statisticsConfigured := true;
    }

    /**
     * `configure_simulation`: RuntimeError, with nothing changed, before the
     * system is built; afterwards statistics are configured when requested.
     */
    method ConfigureSimulation(enableStatistics: bool := true) returns (r: Result<(), Error>)
      modifies this
      ensures r.Err? <==> !old(systemBuilt)
      ensures r.Err? ==> r.error == RuntimeError && statisticsConfigured == old(statisticsConfigured)
      ensures r.Ok? ==> statisticsConfigured == (old(statisticsConfigured) || enableStatistics)
      ensures routers == old(routers) && cpuCores == old(cpuCores) && l1Caches == old(l1Caches)
      ensures memoryControllers == old(memoryControllers)
      ensures workloadConfigs == old(workloadConfigs) && systemBuilt == old(systemBuilt)
    {
      if !systemBuilt {
        return Err(RuntimeError);
      }
      if enableStatistics {
        ConfigureStatistics();
      }
      return Ok(());
    }

    /** `get_system_info`: the configuration and the two flags. */
    function GetSystemInfo(): (r: SystemInfo)
      reads this
      requires Valid()
      ensures r.totalNodes == r.meshSize.0 * r.meshSize.1
      ensures r.systemBuilt == systemBuilt && r.statisticsConfigured == statisticsConfigured
    {
      SystemInfo((meshSizeX, meshSizeY), totalNodes, linkBandwidth, linkLatency, cpuClock, cacheSize, memorySize,
                 outputDir, systemBuilt, statisticsConfigured, workloadConfigs)
    }

    /**
     * `set_node_communication_pattern` (deprecated copy): checks the source,
     * then each target in turn, then merges the entry "node_{source}".
     */
    method SetNodeCommunicationPattern(source: int, targets: seq<int>, messageSize: string := "64B",
                                       messageCount: int := 1000)
      returns (r: Result<(), Error>)
      requires edition == Deprecated
      modifies this
      ensures var spec := CommPattern(old(workloadConfigs), totalNodes, source, targets, messageSize, messageCount);
              && (spec.Ok? ==> r.Ok? && workloadConfigs == spec.value)
              && (spec.Err? ==> r == Err(spec.error) && workloadConfigs == old(workloadConfigs))
      ensures routers == old(routers) && cpuCores == old(cpuCores) && l1Caches == old(l1Caches)
      ensures memoryControllers == old(memoryControllers)
      ensures systemBuilt == old(systemBuilt) && statisticsConfigured == old(statisticsConfigured)
    {
      if source >= totalNodes {
        return Err(ValueError);
      }
      for i := 0 to |targets|
        invariant forall j :: 0 <= j < i ==> targets[j] < totalNodes
      {
        if targets[i] >= totalNodes {
          return Err(ValueError);
        }
      }
      if |targets| == 0 {
        return Err(ValueError);
      }
      workloadConfigs := MirandaConfig.SetWorkloadConfig(workloadConfigs, NodeEntryKey(source),
                                                         CommEntry(source, targets, messageSize, messageCount));
      return Ok(());
    }

    /** `enable_all_to_all_communication` (deprecated copy): one all-to-all entry per node, in id order. */
    method EnableAllToAllCommunication(density: string := "low")
      requires edition == Deprecated
      modifies this
      ensures workloadConfigs == NodeEntries(old(workloadConfigs), AllToAllEntries(totalNodes, density), totalNodes)
      ensures routers == old(routers) && cpuCores == old(cpuCores) && l1Caches == old(l1Caches)
      ensures memoryControllers == old(memoryControllers)
      ensures systemBuilt == old(systemBuilt) && statisticsConfigured == old(statisticsConfigured)
    {
      for i := 0 to totalNodes
        invariant workloadConfigs == NodeEntries(old(workloadConfigs), AllToAllEntries(totalNodes, density), i)
        invariant routers == old(routers) && cpuCores == old(cpuCores) && l1Caches == old(l1Caches)
        invariant memoryControllers == old(memoryControllers)
        invariant systemBuilt == old(systemBuilt) && statisticsConfigured == old(statisticsConfigured)
      {
        workloadConfigs := MirandaConfig.SetWorkloadConfig(workloadConfigs, NodeEntryKey(i), AllToAllEntry(totalNodes, i, density));
      }
    }
  }

  /** The point-to-point pattern: node 0 talks to the last node, then the last node to node 0. */
  function PointToPoint(cfgs: map<string, Config>, total: nat): (r: Result<map<string, Config>, Error>)
    ensures r.Err? <==> total == 0
  {
    match CommPattern(cfgs, total, 0, [total - 1], "64B", 1000)
    case Err(e) => Err(e)
    case Ok(c) => CommPattern(c, total, total - 1, [0], "64B", 1000)
  }

  /** The ring pattern: each node in id order talks to the next one, the last node to node 0. */
  method ConfigureRing(s: MirandaCPUMeshSystem)
    requires s.edition == Deprecated && s.totalNodes > 0
    modifies s
    ensures s.workloadConfigs == NodeEntries(old(s.workloadConfigs), RingEntries(s.totalNodes), s.totalNodes)
    ensures s.routers == old(s.routers) && s.cpuCores == old(s.cpuCores) && s.l1Caches == old(s.l1Caches)
    ensures s.memoryControllers == old(s.memoryControllers)
    ensures s.systemBuilt == old(s.systemBuilt) && s.statisticsConfigured == old(s.statisticsConfigured)
  {
    var total := s.totalNodes;
    for i := 0 to total
      invariant s.workloadConfigs == NodeEntries(old(s.workloadConfigs), RingEntries(total), i)
      invariant s.routers == old(s.routers) && s.cpuCores == old(s.cpuCores) && s.l1Caches == old(s.l1Caches)
      invariant s.memoryControllers == old(s.memoryControllers)
      invariant s.systemBuilt == old(s.systemBuilt) && s.statisticsConfigured == old(s.statisticsConfigured)
    {
      RingStep(s.workloadConfigs, total, i);
      var ri := s.SetNodeCommunicationPattern(i, [(i + 1) % total], "64B", 1000);
    }
  }

  /** The point-to-point pattern, one call per direction; the first call's error propagates. */
  method ConfigurePointToPoint(s: MirandaCPUMeshSystem) returns (r: Result<(), Error>)
    requires s.edition == Deprecated
    modifies s
    ensures var spec := PointToPoint(old(s.workloadConfigs), s.totalNodes);
            && (spec.Ok? ==> r.Ok? && s.workloadConfigs == spec.value)
            && (spec.Err? ==> r == Err(spec.error) && s.workloadConfigs == old(s.workloadConfigs))
    ensures s.routers == old(s.routers) && s.cpuCores == old(s.cpuCores) && s.l1Caches == old(s.l1Caches)
    ensures s.memoryControllers == old(s.memoryControllers)
    ensures s.systemBuilt == old(s.systemBuilt) && s.statisticsConfigured == old(s.statisticsConfigured)
  {
    var total := s.totalNodes;
    r := s.SetNodeCommunicationPattern(0, [total as int - 1], "64B", 1000);
    if r.Err? {
      return r;
    }
    r := s.SetNodeCommunicationPattern(total as int - 1, [0], "64B", 1000);
  }

  /** The first two steps of `create_communication_test_system`: a deprecated-copy system with the default table, built. */
  method NewBuiltSystem(meshSizeX: nat, meshSizeY: nat, linkBandwidth: string, linkLatency: string, cpuClock: string,
                        cacheSize: string, memorySize: string, outputDir: string, verbose: bool)
    returns (s: MirandaCPUMeshSystem)
    ensures fresh(s) && s.Valid() && s.edition == Deprecated && s.totalNodes == meshSizeX * meshSizeY
    ensures s.systemBuilt && !s.statisticsConfigured && |s.routers| == |s.cpuCores| == s.totalNodes
    ensures s.workloadConfigs == DefaultWorkloadConfigs(Deprecated)
  {
    s := new MirandaCPUMeshSystem(Deprecated, meshSizeX, meshSizeY, linkBandwidth, linkLatency, cpuClock, cacheSize,
                                  memorySize, outputDir, verbose);
    DefaultsCoreEntriesOk(Deprecated);
    DefaultsSummaryReadable(Deprecated);
    CoreEntriesAllBuild(meshSizeX, meshSizeY, s.workloadConfigs, cpuClock, verbose, s.totalNodes);
    ComponentLists(s.Params(), s.totalNodes);
    var built := s.BuildSystem();
    assert built.Ok?;
  }

  /**
   * The pattern step of `create_communication_test_system`: "all_to_all"
   * with medium density, "point_to_point" between node 0 and the last node
   * (ValueError on an empty mesh, raised by the first call), "ring"; any
   * other name configures nothing.
   */
  method ApplyPattern(s: MirandaCPUMeshSystem, pattern: string) returns (r: Result<(), Error>)
    requires s.edition == Deprecated
    modifies s
    ensures r.Err? <==> pattern == "point_to_point" && s.totalNodes == 0
    ensures r.Err? ==> r.error == ValueError && s.workloadConfigs == old(s.workloadConfigs)
    ensures pattern == "all_to_all" ==>
              s.workloadConfigs == NodeEntries(old(s.workloadConfigs), AllToAllEntries(s.totalNodes, "medium"), s.totalNodes)
    ensures pattern == "ring" && s.totalNodes > 0 ==>
              s.workloadConfigs == NodeEntries(old(s.workloadConfigs), RingEntries(s.totalNodes), s.totalNodes)
    ensures pattern == "point_to_point" && r.Ok? ==>
              s.workloadConfigs == PointToPoint(old(s.workloadConfigs), s.totalNodes).value
    ensures pattern !in {"all_to_all", "point_to_point", "ring"} || (pattern == "ring" && s.totalNodes == 0) ==>
              s.workloadConfigs == old(s.workloadConfigs)
    ensures s.routers == old(s.routers) && s.cpuCores == old(s.cpuCores) && s.l1Caches == old(s.l1Caches)
    ensures s.memoryControllers == old(s.memoryControllers)
    ensures s.systemBuilt == old(s.systemBuilt) && s.statisticsConfigured == old(s.statisticsConfigured)
  {
    var total := s.totalNodes;
    if pattern == "all_to_all" {
      s.EnableAllToAllCommunication("medium");
    } else if pattern == "point_to_point" {
      r := ConfigurePointToPoint(s);
      return r;
    } else if pattern == "ring" && total > 0 {
      ConfigureRing(s);
    }
    r := Ok(());
  }

  /**
   * `create_communication_test_system` (deprecated copy): a new system built
   * with the default table, then the named pattern, then the simulation with
   * statistics.  Only the point-to-point pattern on an empty mesh fails, with
   * ValueError.
   */
  method CreateCommunicationTestSystem(meshSizeX: nat := 4, meshSizeY: nat := 4, pattern: string := "point_to_point",
                                       linkBandwidth: string := "40GiB/s", linkLatency: string := "50ps",
                                       cpuClock: string := "2.4GHz", cacheSize: string := "32KiB",
                                       memorySize: string := "128MiB", outputDir: string := "/home/anarchy/SST/sst_output_data",
                                       verbose: bool := true)
    returns (s: MirandaCPUMeshSystem, r: Result<(), Error>)
    ensures s.Valid() && s.edition == Deprecated && s.totalNodes == meshSizeX * meshSizeY
    ensures s.systemBuilt && |s.routers| == |s.cpuCores| == s.totalNodes
    ensures r.Err? <==> pattern == "point_to_point" && s.totalNodes == 0
    ensures r.Ok? ==> s.statisticsConfigured
    ensures pattern == "all_to_all" ==>
              s.workloadConfigs == NodeEntries(DefaultWorkloadConfigs(Deprecated), AllToAllEntries(s.totalNodes, "medium"), s.totalNodes)
    ensures pattern == "ring" && s.totalNodes > 0 ==>
              s.workloadConfigs == NodeEntries(DefaultWorkloadConfigs(Deprecated), RingEntries(s.totalNodes), s.totalNodes)
    ensures pattern == "point_to_point" && r.Ok? ==>
              s.workloadConfigs == PointToPoint(DefaultWorkloadConfigs(Deprecated), s.totalNodes).value
    ensures pattern !in {"all_to_all", "point_to_point", "ring"} || (pattern == "ring" && s.totalNodes == 0) ==>
              s.workloadConfigs == DefaultWorkloadConfigs(Deprecated)
  {
    s := NewBuiltSystem(meshSizeX, meshSizeY, linkBandwidth, linkLatency, cpuClock, cacheSize, memorySize, outputDir, verbose);
    r := ApplyPattern(s, pattern);
    if r.Err? {
      return;
    }
    r := s.ConfigureSimulation(true);
  }
}
