# Network-on-chip mesh simulators and SST system builders, in Dafny

This project models the core of a collection of Python scripts that build and
simulate 2-D network-on-chip meshes of CPU nodes for the SST simulator:

- **The hybrid Miranda mesh** (`02_Core_Systems/hybrid_miranda_mesh.py`). This is a logical
  packet simulator over an X-by-Y mesh or torus of `MirandaCPUNode`s. Each node has an input
  queue, one output queue per direction, packet and byte counters, and per-direction and
  per-type tallies. Routing is dimension-order (XY) on a mesh and shortest-wrap on a torus.
  The file also holds the traffic-matrix, link-utilisation, hotspot and congestion analyses.
- **The 4x4 simulator** (`02_Core_Systems/simple_connect_test.py`). This is the earlier
  simulator: nodes keyed by coordinate, XY routing, and a mock statistics registry whose
  entries `node_{x}_{y}_{metric}` mirror the node counters. It also has the report step that
  parses those names back.
- **The SST system builders** `MirandaCPUMeshSystem` (`02_Core_Systems/miranda_cpu_mesh_system.py`
  and its deprecated copy), which have four parts:
  - the default workload table per core type and the `set_workload_config` merge;
  - the CPU parameter dictionary of each node;
  - the node loop and mesh links of `build_system`;
  - the two configuration flags.

  The deprecated copy adds per-node communication patterns and node address windows.
- **The shared-memory NoC classes** `NoCNode` and `NoCMesh` (`02_Core_Systems/noc_node_class.py`
  and its deprecated copy). Each has:
  - memory nodes at given ids, the four corners by default;
  - the workload each compute node gets from its position;
  - the router links;
  - the division of the 512 MiB shared space among the memory nodes.
- **`calculate_mesh_efficiency`** of `04_Analysis_Tools/analyze_cpu_system.py`: the hop
  total over all ordered node pairs of the 4x4 mesh.

How the code is organised:

- Pure computations are functions. Each is proved against its properties.
- Objects that the source updates in place are classes: `HybridMirandaMesh`, `Mesh4x4`,
  `MockSSTStatistics`, `MirandaCPUMeshSystem`, both `NoCMesh`es and `NoCNode`. Their methods
  are proved to produce the state of the specification function.
- Every loop of the source is a `while`/`for` loop with its invariants.

The main proved properties:

- **Hybrid mesh invariant.** When the topology type given to the constructor equals the type
  of the topology configuration, `MeshInvariant.Inv` is established by construction and kept
  by sends, by each routing and transfer phase, and by any number of simulation steps. It says:
  - every packet sent is, exactly once, either still queued or delivered;
  - the sent counters add up to the packet counter;
  - every queued packet is in flight, meaning its hops plus its remaining distance equal its
    source-to-destination distance;
  - an output queue never faces a missing neighbour.
- **Routing.** XY routing reaches the destination after exactly the Manhattan distance;
  torus routing after the sum of the shorter ring distances.
- **4x4 simulator.** With statistics on, the statistics always equal the node counters.
- **Statistic names.** A registered name parses back to its node and metric.
- **Builders.** Exactly the defaults let every node build. Set-workload and pattern merges
  change exactly the entries they name.
- **NoC meshes.** The memory ranges tile the shared space. The compute windows are disjoint.
- **Analysis tool.** The mesh-efficiency sums are 640 hops over 240 pairs.

`simulate_step` (`hybrid_miranda_mesh.py:1045-1050`) calls `process_packets` (675-689) node
by node, so a packet moved to a later node's input queue can move again in the same step;
the model steps the same way.

## Model

| member | source | states |
|---|---|---|
| Grid.NeighborPresence | 02_Core_Systems/hybrid_miranda_mesh.py:898-972 | on a mesh a neighbour is missing exactly at the outward edge; on a torus every direction but LOCAL has one |
| Grid.NeighborSymmetric | 02_Core_Systems/hybrid_miranda_mesh.py:898-972 | links are symmetric: A's EAST is B iff B's WEST is A, A's SOUTH is B iff B's NORTH is A |
| Grid.NeighborInGrid | 02_Core_Systems/hybrid_miranda_mesh.py:898-972 | every neighbour position lies inside the grid |
| Grid.IdOfBounds | 02_Core_Systems/hybrid_miranda_mesh.py:866-869 | the row-major id y*X+x of an in-grid position is below X*Y and converts back to the position |
| Grid.CoordOfBounds | 02_Core_Systems/miranda_cpu_mesh_system.py:160-180 | (id % X, id // X) of an id below X*Y is in the grid and converts back to the id |
| Routing.TorusRoute | 02_Core_Systems/hybrid_miranda_mesh.py:215-231 | LOCAL exactly at the destination; an x move (EAST/WEST) exactly while x differs |
| Routing.TorusRouteDirection | 02_Core_Systems/hybrid_miranda_mesh.py:232-258 | a y move exactly once x agrees; EAST (SOUTH) exactly when the direct way increases and is at most half the ring, or decreases and is more than half: a tie goes the direct way |
| Routing.XYRoute | 02_Core_Systems/hybrid_miranda_mesh.py:183-213 | LOCAL exactly at the destination; x is corrected first, and the move goes toward the destination |
| Routing.Route | 02_Core_Systems/hybrid_miranda_mesh.py:166-181 | the topology dispatch answers LOCAL exactly at the destination |
| Routing.DistNonNegative | 02_Core_Systems/hybrid_miranda_mesh.py:183-258 | the routing distance is non-negative and zero exactly at the destination |
| Routing.RingStep | 02_Core_Systems/hybrid_miranda_mesh.py:215-258 | one hop the way the torus router chooses shrinks the ring distance by one (the chosen way is the shorter) |
| Routing.RouteProgress | 02_Core_Systems/hybrid_miranda_mesh.py:183-258 | away from the destination the chosen direction has an existing in-grid neighbour that is one hop closer |
| Routing.WalkDistance | 02_Core_Systems/hybrid_miranda_mesh.py:183-258 | after k routed hops the remaining distance is the initial one minus k, never below zero |
| Routing.ArrivesAfterDistance | 02_Core_Systems/hybrid_miranda_mesh.py:183-258 | a packet is at its destination after k hops exactly when k is at least the Manhattan (mesh) or wrap (torus) distance |
| Routing.XBeforeY | 02_Core_Systems/simple_connect_test.py:85-107 | once a packet moves in y it never moves in x again: dimension order |
| CoreTypes.PositionClassPartition | 02_Core_Systems/hybrid_miranda_mesh.py:426-464 | on a grid of at least 2x2: exactly one master at (0,0), one memory controller at (X-1,Y-1), I/O cores on the rest of the border, compute cores inside |
| CoreTypes.ClassifiersAgree | 02_Core_Systems/miranda_cpu_mesh_system.py:160-180 | the builders' id-based classifier and the simulator's position-based one agree on every node |
| CoreTypes.AnalysisTablesAgree | 04_Analysis_Tools/analyze_cpu_system.py:97-104 | on 4x4 the classifier yields exactly the I/O ids 1,2,3,4,7,8,11,12,13,14 and compute ids 5,6,9,10 the tool hard-codes |
| MirandaNode.PortMapsMirror | 02_Core_Systems/hybrid_miranda_mesh.py:588-620 | a link in direction d arrives at the port the neighbour uses for the opposite direction; the four directions use four different ports |
| MirandaNode.RouteInputQueue | 02_Core_Systems/hybrid_miranda_mesh.py:678-680 | the pop-and-route loop computes the routing phase RouteAll (empty input queue, setup unchanged) |
| MirandaNode.RoutedToMembers | 02_Core_Systems/hybrid_miranda_mesh.py:691-731 | every packet routed to d comes from the queue and is one the router sends in direction d |
| MirandaNode.RouteAllQueues | 02_Core_Systems/hybrid_miranda_mesh.py:675-731 | the routing phase appends, in FIFO order, exactly the packets routed to d to d's output queue; LOCAL packets are queued nowhere |
| MirandaNode.RouteAllTraffic | 02_Core_Systems/hybrid_miranda_mesh.py:706-728 | each direction's tally grows by the number and total size of the packets routed that way |
| MirandaNode.RouteAllCounters | 02_Core_Systems/hybrid_miranda_mesh.py:700-724 | delivered packets are counted as received (bytes and hops too), every other routed packet as forwarded |
| MirandaNode.RoutePacketIds | 02_Core_Systems/hybrid_miranda_mesh.py:691-731 | routing one packet either delivers it or adds its id to exactly one output queue |
| MirandaNode.RouteAllIds | 02_Core_Systems/hybrid_miranda_mesh.py:675-731 | conservation across the routing phase: delivered ids leave the node's queues, every other id stays |
| MirandaNode.SendPacketIds | 02_Core_Systems/hybrid_miranda_mesh.py:634-669 | sending adds exactly the new id to the queues and one to the sent count, leaving received unchanged |
| MirandaNode.SendPacketOk | 02_Core_Systems/hybrid_miranda_mesh.py:634-669 | injecting a packet for an in-grid destination keeps the node's queue invariant |
| MirandaNode.RoutePacketOk | 02_Core_Systems/hybrid_miranda_mesh.py:691-731 | routing an in-flight packet keeps the queue invariant; a delivered packet has travelled exactly its distance |
| MirandaNode.RouteAllOk | 02_Core_Systems/hybrid_miranda_mesh.py:675-680 | the routing phase keeps the queue invariant |
| MirandaNode.RouteAllHops | 02_Core_Systems/hybrid_miranda_mesh.py:700-705 | the hop total grows by the source-to-destination distance of each delivered packet: shortest routes |
| MirandaNode.NewNodeTallies | 02_Core_Systems/hybrid_miranda_mesh.py:351-401 | a new node's counters agree with its tallies and its queues are empty |
| MirandaNode.SendPacketTallies | 02_Core_Systems/hybrid_miranda_mesh.py:660-669 | sending keeps sent = data + memory-request tallies (packets and bytes) |
| MirandaNode.RoutePacketTallies | 02_Core_Systems/hybrid_miranda_mesh.py:700-728 | routing keeps received = LOCAL tally and forwarded = sum of the four link tallies |
| MirandaNode.RouteAllTallies | 02_Core_Systems/hybrid_miranda_mesh.py:675-680 | the routing phase keeps the counters in agreement with the tallies |
| MirandaNode.NodeInfoTotals | 02_Core_Systems/hybrid_miranda_mesh.py:744-765 | the report's totals count each packet event once: a send adds one packet and its size, a routing phase one per routed packet |
| MeshState.LinksAreNeighbors | 02_Core_Systems/hybrid_miranda_mesh.py:898-972 | the neighbour ids the connect loops write are exactly the ids of the neighbouring positions |
| MeshState.LinksInGrid | 02_Core_Systems/hybrid_miranda_mesh.py:898-972 | every wired neighbour id is a node id at the neighbouring position |
| MeshState.TransferDirSame | 02_Core_Systems/hybrid_miranda_mesh.py:683-689 | a transfer touches only queues: every node keeps its setup and counters |
| MeshState.VisitOrderContents | 02_Core_Systems/hybrid_miranda_mesh.py:866-883 | the k-th inserted id is that of position (k / Y, k % Y): column by column, top to bottom |
| MeshState.VisitOrderInRange | 02_Core_Systems/hybrid_miranda_mesh.py:866-883 | the visit order has X*Y entries, each a node id |
| MeshState.VisitOrderDistinct | 02_Core_Systems/hybrid_miranda_mesh.py:1045-1050 | no node is processed twice in one step |
| MeshState.VisitOrderComplete | 02_Core_Systems/hybrid_miranda_mesh.py:1045-1050 | every node is processed in a step |
| MeshInvariant.InvConservation | 02_Core_Systems/hybrid_miranda_mesh.py:1022-1057 | under the invariant the sent counters add up to the packet counter and received + queued = packets sent |
| MeshInvariant.InvUniqueIds | 02_Core_Systems/hybrid_miranda_mesh.py:1022-1057 | each handed-out id is queued exactly once or delivered exactly once, and no other id exists |
| MeshInvariant.InvNoStranding | 02_Core_Systems/hybrid_miranda_mesh.py:683-689 | a packet on an output queue always faces a wired neighbour, and the LOCAL output queue stays empty |
| MeshInvariant.InitialInv | 02_Core_Systems/hybrid_miranda_mesh.py:789-844 | when the construction's topology type equals the configuration's, the freshly built and wired table satisfies the invariant with counter 0 |
| MeshInvariant.SendMessageInv | 02_Core_Systems/hybrid_miranda_mesh.py:1022-1033 | sending keeps the invariant; the counter advances exactly when both ids name nodes, otherwise nothing changes |
| MeshInvariant.TransferredInFlight | 02_Core_Systems/hybrid_miranda_mesh.py:683-689 | a transferred packet arrives one hop further and one hop closer, still in flight |
| MeshInvariant.TransferDirIds | 02_Core_Systems/hybrid_miranda_mesh.py:683-689 | a transfer keeps the multiset of queued ids |
| MeshInvariant.TransferDirInv | 02_Core_Systems/hybrid_miranda_mesh.py:683-689 | one direction's transfer keeps the invariant |
| MeshInvariant.TransferAllInv | 02_Core_Systems/hybrid_miranda_mesh.py:683-689 | the whole transfer phase keeps the invariant |
| MeshInvariant.RoutePhaseInv | 02_Core_Systems/hybrid_miranda_mesh.py:678-680 | the routing phase keeps the invariant, moving its delivered ids to the delivered multiset |
| MeshInvariant.ProcessNodeInv | 02_Core_Systems/hybrid_miranda_mesh.py:675-689 | one node's processing keeps the invariant, adding exactly the ids it delivers |
| MeshInvariant.ProcessOrderInv | 02_Core_Systems/hybrid_miranda_mesh.py:1045-1050 | processing nodes in any order keeps the invariant |
| MeshInvariant.StepsInv | 02_Core_Systems/hybrid_miranda_mesh.py:1052-1057 | any number of simulation steps keeps the invariant |
| MeshLinks.AllLinksShape | 02_Core_Systems/miranda_cpu_mesh_system.py:314-351 | every builder link joins routers adjacent in a row (port0 to port1) or a column (port2 to port3) |
| MeshLinks.AllLinksCount | 02_Core_Systems/miranda_cpu_mesh_system.py:314-351 | the builders create (X-1)*Y + X*(Y-1) links; none on an empty grid |
| MeshLinks.BuildMeshNetwork | 02_Core_Systems/miranda_cpu_mesh_system.py:314-351 | the double loop creates the links in row-major order and returns their number |
| MeshLinks.BuildRowLinks | 02_Core_Systems/miranda_cpu_mesh_system.py:320-349 | the inner loop creates row y's east and south links and counts them |
| HybridMesh.ConnectTorusNode | 02_Core_Systems/hybrid_miranda_mesh.py:932-969 | the torus connect step gives a node all four neighbours, wrapping at the edges |
| HybridMesh.ConnectMeshNode | 02_Core_Systems/hybrid_miranda_mesh.py:898-930 | the mesh connect step gives a node exactly its in-grid neighbours (MeshLinks), east and south then north and west |
| HybridMesh.CreateTopology | 02_Core_Systems/hybrid_miranda_mesh.py:860-885 | one unwired node per position, inserted column by column, under id y*X+x |
| HybridMesh.ConnectNodes | 02_Core_Systems/hybrid_miranda_mesh.py:887-972 | wiring in the same order yields exactly the initial wired table |
| HybridMesh.BuildNodes | 02_Core_Systems/hybrid_miranda_mesh.py:860-972 | creation plus wiring yields InitialNodes, with the insertion order VisitOrder |
| HybridMesh.InitialLinksInRange | 02_Core_Systems/hybrid_miranda_mesh.py:898-972 | the wired table refers only to existing nodes |
| HybridMesh.SendMessageLinks | 02_Core_Systems/hybrid_miranda_mesh.py:1022-1033 | sending never rewires a node |
| HybridMesh.NodeAtPositionCorrect | 02_Core_Systems/hybrid_miranda_mesh.py:1015-1020 | the intended lookup finds a node exactly for grid positions, and the node sits there |
| HybridMesh.NodeByPositionInGrid | 02_Core_Systems/hybrid_miranda_mesh.py:1015-1020 | inside the grid the lookup as written agrees with the intended one |
| HybridMesh.PositionAliasing | 02_Core_Systems/hybrid_miranda_mesh.py:1015-1020 | outside the grid the lookup as written returns another node: (X,0) gives (0,1), (-1,1) gives (X-1,0) |
| HybridMesh.InitialValid | 02_Core_Systems/hybrid_miranda_mesh.py:789-844 | the built object satisfies the mesh invariant: ids, order and links in range always, and Inv when the construction's topology type equals the configuration's |
| HybridMesh.SendValid | 02_Core_Systems/hybrid_miranda_mesh.py:1022-1033 | a send keeps the mesh invariant (Inv included when the construction's topology type equals the configuration's) |
| HybridMesh.ProcessValid | 02_Core_Systems/hybrid_miranda_mesh.py:675-689 | one node's processing keeps the mesh invariant (Inv included when the construction's topology type equals the configuration's) |
| HybridMesh.NodeTraffic | 02_Core_Systems/hybrid_miranda_mesh.py:1189-1263 | one node's pass builds its matrix row and credits its link directions to the utilisation table |
| HybridMesh.HybridMirandaMesh.constructor | 02_Core_Systems/hybrid_miranda_mesh.py:789-853 | the default 4x4 configuration when none is given (topology MESH by default); the initial wired table, counter 0 and the mesh invariant, which includes Inv when the construction's topology type equals the configuration's |
| HybridMesh.HybridMirandaMesh.GetNode | 02_Core_Systems/hybrid_miranda_mesh.py:1011-1013 | a node exactly for ids below the node count, carrying that id and its row-major position |
| HybridMesh.HybridMirandaMesh.GetNodeByPosition | 02_Core_Systems/hybrid_miranda_mesh.py:1015-1020 | any node found is in the table; inside the grid it is the node at (x, y) |
| HybridMesh.HybridMirandaMesh.SendMessage | 02_Core_Systems/hybrid_miranda_mesh.py:1022-1033 | the new state is MeshInvariant.SendMessage of the old one, and the mesh invariant is kept (Inv included when the construction's topology type equals the configuration's) |
| HybridMesh.HybridMirandaMesh.SendMessageByPosition | 02_Core_Systems/hybrid_miranda_mesh.py:1035-1043 | a send between the unchecked ids y*X+x of the two positions |
| HybridMesh.HybridMirandaMesh.ProcessPackets | 02_Core_Systems/hybrid_miranda_mesh.py:675-689 | the table becomes ProcessNode of the old one, and the delivered ids grow by that node's deliveries; the mesh invariant is kept (Inv included when the construction's topology type equals the configuration's) |
| HybridMesh.HybridMirandaMesh.SimulateStep | 02_Core_Systems/hybrid_miranda_mesh.py:1045-1050 | every node processed once in insertion order, and the mesh invariant is kept (Inv included when the construction's topology type equals the configuration's) |
| HybridMesh.HybridMirandaMesh.Simulate | 02_Core_Systems/hybrid_miranda_mesh.py:1052-1057 | `steps` steps, ten by default (none for a negative count), and the mesh invariant is kept (Inv included when the construction's topology type equals the configuration's) |
| HybridMesh.HybridMirandaMesh.GetTrafficMatrix | 02_Core_Systems/hybrid_miranda_mesh.py:1189-1263 | the matrix and link table are MatrixAfter and the accumulated contributions of every node |
| HybridMesh.HybridMirandaMesh.AnalyzeHotspots | 02_Core_Systems/hybrid_miranda_mesh.py:1265-1305 | the hotspot and congestion lists are the stably sorted entries |
| TrafficAnalysis.MatrixNeighborIsMeshNeighbor | 02_Core_Systems/hybrid_miranda_mesh.py:1200-1230 | the matrix credits a link direction to the mesh neighbour position, and LOCAL to the node itself |
| TrafficAnalysis.WrapTrafficOmitted | 02_Core_Systems/hybrid_miranda_mesh.py:1200-1230 | a torus wrap-around link exists but its traffic has no matrix position |
| TrafficAnalysis.MatrixNeighborDistinct | 02_Core_Systems/hybrid_miranda_mesh.py:1200-1230 | different directions lead to different matrix positions |
| TrafficAnalysis.NodeRowContents | 02_Core_Systems/hybrid_miranda_mesh.py:1189-1263 | a row holds exactly the positions some direction with traffic leads to, each with that direction's tally |
| TrafficAnalysis.MatrixAfterContents | 02_Core_Systems/hybrid_miranda_mesh.py:1189-1263 | the matrix has one row per visited node position, that node's row |
| TrafficAnalysis.LinkKeySymmetric | 02_Core_Systems/hybrid_miranda_mesh.py:1189-1263 | a link key is the ordered pair of its ends, the same for both directions |
| TrafficAnalysis.AccumulateKeys | 02_Core_Systems/hybrid_miranda_mesh.py:1189-1263 | the utilisation table has an entry exactly for the credited links |
| TrafficAnalysis.AccumulateSums | 02_Core_Systems/hybrid_miranda_mesh.py:1189-1263 | each utilisation entry is the sum of everything credited to that link |
| TrafficAnalysis.DirContribsAdjacent | 02_Core_Systems/hybrid_miranda_mesh.py:1189-1263 | every credited link joins two mesh-adjacent positions and carries the tally of a direction with traffic |
| TrafficAnalysis.Insert | 02_Core_Systems/hybrid_miranda_mesh.py:1265-1305 | insertion adds exactly one entry (multiset) |
| TrafficAnalysis.InsertSorted | 02_Core_Systems/hybrid_miranda_mesh.py:1265-1305 | inserting into a descending list keeps it descending |
| TrafficAnalysis.SortDescendingCorrect | 02_Core_Systems/hybrid_miranda_mesh.py:1265-1305 | the ranking is ordered highest first and is a permutation of its input |
| TrafficAnalysis.SortedAllPairs | 02_Core_Systems/hybrid_miranda_mesh.py:1265-1305 | in a descending ranking every entry scores at least as high as every later one |
| TrafficAnalysis.SortDescendingSorted | 02_Core_Systems/hybrid_miranda_mesh.py:1265-1305 | the ranking is ordered highest first |
| TrafficAnalysis.SortDescendingPermutes | 02_Core_Systems/hybrid_miranda_mesh.py:1265-1305 | the ranking holds exactly its input entries |
| TrafficAnalysis.SortDescendingStable | 02_Core_Systems/hybrid_miranda_mesh.py:1276 | the ranking is stable like Python's `sort(reverse=True)`: entries scoring the same as any x keep their input order |
| TrafficAnalysis.InsertStable | 02_Core_Systems/hybrid_miranda_mesh.py:1276 | inserting y into a ranking places it after every entry tying with it |
| TrafficAnalysis.CongestedIsRatioAboveHalf | 02_Core_Systems/hybrid_miranda_mesh.py:1280-1295 | the integer congestion test is exactly "forwarded > 0 and forwarding ratio > 1/2" |
| TrafficAnalysis.CongestedEntriesContents | 02_Core_Systems/hybrid_miranda_mesh.py:1265-1305 | a visited node is listed as congested exactly when it is congested |
| TrafficAnalysis.HotspotRanking | 02_Core_Systems/hybrid_miranda_mesh.py:1265-1305 | the hotspot ranking is sorted by total bytes and lists every node's entry exactly once |
| TrafficAnalysis.CongestedRanking | 02_Core_Systems/hybrid_miranda_mesh.py:1265-1305 | the congestion ranking is sorted and holds exactly the congested nodes' entries |
| MockStatistics.Added | 02_Core_Systems/simple_connect_test.py:45-55 | addData adds v to the value and logs the event with the new running total |
| MockStatistics.AddedData | 02_Core_Systems/simple_connect_test.py:45-55 | addData on one name changes only that entry, adding v to its value |
| MockStatistics.NewStatConsistent | 02_Core_Systems/simple_connect_test.py:28-35 | a newly registered statistic is consistent (value = sum of events) |
| MockStatistics.AddedConsistent | 02_Core_Systems/simple_connect_test.py:45-55 | addData keeps the value equal to the sum of the event amounts and each event's running total |
| MockStatistics.MockSSTStatistics.constructor | 02_Core_Systems/simple_connect_test.py:25-26 | an empty registry |
| MockStatistics.MockSSTStatistics.RegisterStatistic | 02_Core_Systems/simple_connect_test.py:28-35 | the entry is (re)created with value 0 and no events |
| MockStatistics.MockSSTStatistics.AddData | 02_Core_Systems/simple_connect_test.py:45-55 | the registry becomes AddedData of the old one |
| StatNames.JoinSplit | 02_Core_Systems/simple_connect_test.py:403-406 | joining the pieces of a split gives the string back |
| StatNames.SplitPiecesFree | 02_Core_Systems/simple_connect_test.py:403-406 | no piece of a split contains the separator |
| StatNames.NatStrValue | 02_Core_Systems/simple_connect_test.py:141-161 | the decimal rendering of a coordinate reads back as the coordinate |
| StatNames.NatStrInjective | 02_Core_Systems/simple_connect_test.py:141-161 | different coordinates render differently |
| StatNames.StatNamePieces | 02_Core_Systems/simple_connect_test.py:141-161 | node_{x}_{y}_{metric} splits into "node", x, y and the metric's own pieces |
| StatNames.ParseStatNameRoundTrip | 02_Core_Systems/simple_connect_test.py:400-410 | a registered name parses back to the key "(x,y)" and the whole metric, underscores included; the same holds for the identical split-and-group code of the hybrid report, `hybrid_miranda_mesh.py:1354-1365` |
| StatNames.StatNameInjective | 02_Core_Systems/simple_connect_test.py:141-161 | distinct (x, y, metric) triples register under distinct names |
| StatNames.GroupByNodeKeysDistinct | 02_Core_Systems/simple_connect_test.py:400-410 | the per-node table has one row per node key; the same holds for the identical split-and-group code of the hybrid report, `hybrid_miranda_mesh.py:1354-1365` |
| StatNames.GroupByNodeLastWins | 02_Core_Systems/simple_connect_test.py:400-410 | a later statistic with the same node key and metric overwrites an earlier one; the same holds for the identical split-and-group code of the hybrid report, `hybrid_miranda_mesh.py:1354-1365` |
| SimpleNet.SimpleLinksAreMesh | 02_Core_Systems/simple_connect_test.py:256-283 | the 4x4 wiring is the mesh wiring: a neighbour exists exactly away from the outward edge |
| SimpleNet.SimpleLinksSymmetric | 02_Core_Systems/simple_connect_test.py:256-283 | the 4x4 links are symmetric |
| SimpleNet.InsertionOrder | 02_Core_Systems/simple_connect_test.py:247-254 | the dictionary holds 16 positions |
| SimpleNet.InsertionOrderExact | 02_Core_Systems/simple_connect_test.py:247-254 | the dictionary's k-th position is (k // 4, k % 4), x outer and y inner; every in-grid position appears exactly once and nothing else does, so a step (299-302) processes every node once |
| SimpleInvariant.NodesApart | 02_Core_Systems/simple_connect_test.py:141-161 | no statistic of one node is named like a statistic of another |
| SimpleInvariant.RegisterNodeFresh | 02_Core_Systems/simple_connect_test.py:141-161 | a new node's five statistics start at 0, matching its zero counters |
| SimpleInvariant.RegisterNodeKeeps | 02_Core_Systems/simple_connect_test.py:141-161 | registering a node's statistics leaves every other node's statistics matching |
| SimpleInvariant.SendMessageEffect | 02_Core_Systems/simple_connect_test.py:289-297 | out-of-grid sends change nothing; otherwise the counter rises, the source queues one packet with that id and hop 0, nothing else changes, and the invariant holds |
| SimpleInvariant.SendPacketOk | 02_Core_Systems/simple_connect_test.py:167-183 | send_packet keeps the invariant |
| SimpleInvariant.RoutePacketEffect | 02_Core_Systems/simple_connect_test.py:206-223 | one routing decision delivers (received + 1) or appends to exactly the routed direction's queue, and no other node changes |
| SimpleInvariant.RoutePacketOk | 02_Core_Systems/simple_connect_test.py:206-223 | one routing decision keeps the invariant |
| SimpleInvariant.RouteAllEffect | 02_Core_Systems/simple_connect_test.py:185-195 | the routing phase empties the input queue in FIFO order into the right output queues and counts the LOCAL packets |
| SimpleInvariant.RouteAllHops | 02_Core_Systems/simple_connect_test.py:206-223 | with statistics on, the hop statistic grows by the hop counts of the delivered packets |
| SimpleInvariant.RouteAllOk | 02_Core_Systems/simple_connect_test.py:185-195 | the routing phase keeps the invariant |
| SimpleInvariant.TransferDirEffect | 02_Core_Systems/simple_connect_test.py:196-204 | a transfer that moves moves the oldest packet, one hop further, to the neighbour and counts one forward; otherwise nothing changes |
| SimpleInvariant.TransferDirMoves | 02_Core_Systems/simple_connect_test.py:196-204 | a transfer that moves a packet changes exactly the node and the neighbour it moves the packet to |
| SimpleInvariant.TransferDirBalance | 02_Core_Systems/simple_connect_test.py:196-204 | forwards plus queued output packets stay constant: a forward is counted only for a packet that leaves |
| SimpleInvariant.TransferDirOk | 02_Core_Systems/simple_connect_test.py:196-204 | one transfer keeps the invariant |
| SimpleInvariant.TransferUpToOk | 02_Core_Systems/simple_connect_test.py:196-204 | the transfer loop keeps the invariant and forwards at most one packet per direction |
| SimpleInvariant.ProcessNodeOk | 02_Core_Systems/simple_connect_test.py:185-204 | process_packets keeps the invariant, forwards at most four packets and counts every delivered packet as received |
| SimpleInvariant.BoundSizes | 02_Core_Systems/simple_connect_test.py:206-223 | every packet of a queue is routed to exactly one direction |
| SimpleInvariant.ProcessOrderOk | 02_Core_Systems/simple_connect_test.py:299-302 | processing nodes in order keeps the invariant |
| SimpleInvariant.StepsOk | 02_Core_Systems/simple_connect_test.py:304-309 | any number of steps keeps the table well formed and the statistics equal to the counters |
| SimpleMesh.Mesh4x4.constructor | 02_Core_Systems/simple_connect_test.py:229-283 | 16 fresh nodes wired to their in-grid neighbours, counter 0, statistics registered when enabled, invariant established |
| SimpleMesh.Mesh4x4.GetNode | 02_Core_Systems/simple_connect_test.py:285-287 | a node exactly for positions inside the 4x4 grid, sitting at that position |
| SimpleMesh.Mesh4x4.SendMessage | 02_Core_Systems/simple_connect_test.py:289-297 | the state and counter become SimpleNet.SendMessage of the old ones |
| SimpleMesh.Mesh4x4.SendPacket | 02_Core_Systems/simple_connect_test.py:167-183 | the state becomes SimpleNet.SendPacket of the old one |
| SimpleMesh.Mesh4x4.RoutePacket | 02_Core_Systems/simple_connect_test.py:206-223 | the state becomes SimpleNet.RoutePacket of the old one |
| SimpleMesh.Mesh4x4.TransferDir | 02_Core_Systems/simple_connect_test.py:196-204 | the state becomes SimpleNet.TransferDir of the old one |
| SimpleMesh.Mesh4x4.ProcessPackets | 02_Core_Systems/simple_connect_test.py:185-204 | the state becomes ProcessNode of the old one, keeping the invariant |
| SimpleMesh.Mesh4x4.RouteInput | 02_Core_Systems/simple_connect_test.py:188-194 | the first loop computes RouteAll |
| SimpleMesh.Mesh4x4.TransferOutput | 02_Core_Systems/simple_connect_test.py:196-204 | the second loop computes TransferUpTo over all five directions |
| SimpleMesh.Mesh4x4.SimulateStep | 02_Core_Systems/simple_connect_test.py:299-302 | every node processed once in dictionary order, keeping the invariant |
| SimpleMesh.Mesh4x4.Simulate | 02_Core_Systems/simple_connect_test.py:304-309 | `steps` steps, ten by default (none for a non-positive count), keeping the invariant |
| MirandaConfig.SetWorkloadConfig | 02_Core_Systems/miranda_cpu_mesh_system.py:147-158 | an existing entry is updated (new keys win, old keys kept), a missing one inserted, no other entry changes |
| MirandaConfig.Prefixed | 02_Core_Systems/miranda_cpu_mesh_system.py:216-252 | every generator parameter appears exactly under "generatorParams." + its key |
| MirandaConfig.PrefixedAvoidsFixed | 02_Core_Systems/miranda_cpu_mesh_system.py:216-252 | no prefixed parameter collides with one of the five fixed ones |
| MirandaConfig.CpuParams | 02_Core_Systems/miranda_cpu_mesh_system.py:216-252 | Ok exactly when the three keys exist and "params" is a table, AttributeError when it is a string; the fixed values and every prefixed parameter otherwise |
| MirandaConfig.CoreEntriesBuild | 02_Core_Systems/miranda_cpu_mesh_system.py:216-252 | with sound core entries every node's CPU parameters build |
| MirandaConfig.DefaultEntryLookup | 02_Core_Systems/miranda_cpu_mesh_system.py:90-145 | each core type's default entry is in the default table |
| MirandaConfig.DefaultsCoreEntriesOk | 02_Core_Systems/deprecated/miranda_cpu_mesh_system.py:90-157 | the default table of either copy has a buildable entry for every core type |
| MirandaConfig.DefaultsSummaryReadable | 02_Core_Systems/miranda_cpu_mesh_system.py:481-505 | every default entry has a description, so a verbose build can print its summary |
| MirandaConfig.SetWorkloadConfigKeepsCoreEntries | 02_Core_Systems/miranda_cpu_mesh_system.py:147-158 | merging an entry whose "params" is a table keeps every core entry buildable |
| MirandaConfig.SetWorkloadConfigKeepsSummary | 02_Core_Systems/deprecated/miranda_cpu_mesh_system.py:593-596 | merging into an existing entry, or inserting a described or per-node one, keeps the summary readable |
| MirandaConfig.NodeEntriesIgnored | 02_Core_Systems/deprecated/miranda_cpu_mesh_system.py:228-264 | per-node "node_" entries never change any node's CPU parameters |
| MirandaComm.NodeAddressRange | 02_Core_Systems/deprecated/miranda_cpu_mesh_system.py:714-729 | ValueError exactly for ids at or beyond the node count; otherwise a 1 MiB window above the first MiB |
| MirandaComm.AddressWindowsAdjacent | 02_Core_Systems/deprecated/miranda_cpu_mesh_system.py:714-729 | node a+1's window starts right after node a's ends |
| MirandaComm.AddressWindowsDisjoint | 02_Core_Systems/deprecated/miranda_cpu_mesh_system.py:714-729 | the windows of two different nodes do not overlap |
| MirandaComm.RemoveChar | 02_Core_Systems/deprecated/miranda_cpu_mesh_system.py:671 | replace(c, "") keeps exactly the other characters and never lengthens |
| MirandaComm.NodeEntryKeyInjective | 02_Core_Systems/deprecated/miranda_cpu_mesh_system.py:676 | "node_{i}" keys start with "node_" and differ for different ids |
| MirandaComm.CommPattern | 02_Core_Systems/deprecated/miranda_cpu_mesh_system.py:641-679 | ValueError exactly for an out-of-range source or target or no target; otherwise exactly the "node_{source}" entry is merged |
| MirandaComm.CommWindowCoversTargets | 02_Core_Systems/deprecated/miranda_cpu_mesh_system.py:663-674 | the pattern's window covers the id-th MiB of every target |
| MirandaComm.CommWindowMissesTarget | 02_Core_Systems/deprecated/miranda_cpu_mesh_system.py:669-670 | as written, a single-target window lies wholly below the target's own address window |
| MirandaComm.IntendedCommWindowCovers | 02_Core_Systems/deprecated/miranda_cpu_mesh_system.py:714-729 | the corrected window contains every target's address window |
| MirandaComm.NodeEntriesKeys | 02_Core_Systems/deprecated/miranda_cpu_mesh_system.py:696-709 | the per-node loop adds exactly the keys "node_{i}" for i below n |
| MirandaComm.NodeEntriesOthers | 02_Core_Systems/deprecated/miranda_cpu_mesh_system.py:696-709 | entries other than those keys are left as they were |
| MirandaComm.NodeEntriesAt | 02_Core_Systems/deprecated/miranda_cpu_mesh_system.py:696-709 | node i's entry is its new entry merged onto the old one: one write per node |
| MirandaComm.RingTargetsNext | 02_Core_Systems/deprecated/miranda_cpu_mesh_system.py:774-813 | in the ring pattern node i addresses the window of node (i+1) % total, as written |
| MirandaComm.DensityFallback | 02_Core_Systems/deprecated/miranda_cpu_mesh_system.py:694 | an unknown density is treated as "low" |
| MirandaSystem.FirstFailure | 02_Core_Systems/miranda_cpu_mesh_system.py:353-395 | the first node whose CPU cannot be built: all nodes before it build |
| MirandaSystem.FirstFailureIs | 02_Core_Systems/miranda_cpu_mesh_system.py:353-395 | a node that fails after all earlier ones built is the first failure |
| MirandaSystem.ComponentLists | 02_Core_Systems/miranda_cpu_mesh_system.py:353-395 | each list has one component per node, component i belonging to node i |
| MirandaSystem.CoreEntriesAllBuild | 02_Core_Systems/miranda_cpu_mesh_system.py:216-252 | sound core entries let every node build |
| MirandaSystem.MirandaCPUMeshSystem.constructor | 02_Core_Systems/miranda_cpu_mesh_system.py:42-88 | the given configuration (4x4, 40GiB/s, 50ps, 2.4GHz, 32KiB, 128MiB, verbose by default), empty component lists, the copy's default table, both flags false |
| MirandaSystem.MirandaCPUMeshSystem.SetWorkloadConfig | 02_Core_Systems/miranda_cpu_mesh_system.py:147-158 | the table becomes SetWorkloadConfig of the old one and nothing else changes |
| MirandaSystem.MirandaCPUMeshSystem.BuildSystem | 02_Core_Systems/miranda_cpu_mesh_system.py:353-395 | built already: no change; otherwise built exactly when every node builds, one component of each kind per node, KeyError from a summary entry without description |
| MirandaSystem.MirandaCPUMeshSystem.CreateNodes | 02_Core_Systems/miranda_cpu_mesh_system.py:367-380 | the node loop creates each node's components in id order and stops with the first failing node's exception |
| MirandaSystem.MirandaCPUMeshSystem.ConfigureStatistics | 02_Core_Systems/miranda_cpu_mesh_system.py:397-451 | the flag is set the first time; nothing else changes |
| MirandaSystem.MirandaCPUMeshSystem.ConfigureSimulation | 02_Core_Systems/miranda_cpu_mesh_system.py:453-479 | RuntimeError exactly before the system is built; afterwards statistics configured when requested (requested by default) |
| MirandaSystem.MirandaCPUMeshSystem.GetSystemInfo | 02_Core_Systems/miranda_cpu_mesh_system.py:507-526 | the node count is the product of the mesh sizes and the flags are reported as they are |
| MirandaSystem.MirandaCPUMeshSystem.SetNodeCommunicationPattern | 02_Core_Systems/deprecated/miranda_cpu_mesh_system.py:641-679 | the table becomes CommPattern's result (64B and 1000 messages by default), or is unchanged with its error |
| MirandaSystem.MirandaCPUMeshSystem.EnableAllToAllCommunication | 02_Core_Systems/deprecated/miranda_cpu_mesh_system.py:681-712 | one all-to-all entry merged per node, in id order (density "low" by default) |
| MirandaSystem.PointToPoint | 02_Core_Systems/deprecated/miranda_cpu_mesh_system.py:792-795 | fails exactly on an empty mesh |
| MirandaSystem.ConfigureRing | 02_Core_Systems/deprecated/miranda_cpu_mesh_system.py:796-799 | each node in id order gets the pattern targeting the next node |
| MirandaSystem.ConfigurePointToPoint | 02_Core_Systems/deprecated/miranda_cpu_mesh_system.py:792-795 | the two calls, the first one's error propagating |
| MirandaSystem.NewBuiltSystem | 02_Core_Systems/deprecated/miranda_cpu_mesh_system.py:774-791 | a built system with the default table |
| MirandaSystem.ApplyPattern | 02_Core_Systems/deprecated/miranda_cpu_mesh_system.py:788-799 | which entries each named pattern merges; ValueError only for point-to-point on an empty mesh |
| MirandaSystem.CreateCommunicationTestSystem | 02_Core_Systems/deprecated/miranda_cpu_mesh_system.py:774-813 | a built system (4x4 point-to-point by default) with the pattern's entries, statistics configured unless the pattern failed |
| NodeSets.MemoryNodeSet | 02_Core_Systems/noc_node_class.py:347-355 | a given list becomes the set of its members |
| NodeSets.DefaultMemoryCorners | 02_Core_Systems/noc_node_class.py:347-355 | the default ids are exactly the ids of the corner positions |
| NodeSets.DefaultMemoryCount | 02_Core_Systems/noc_node_class.py:347-355 | four default memory nodes on a grid at least 2x2, two on a line, one on a single node |
| NodeSets.FilterPartition | 02_Core_Systems/noc_node_class.py:487-493 | the compute and memory filters split the node list |
| NodeSets.FilterAppend | 02_Core_Systems/noc_node_class.py:487-493 | filtering keeps the original order |
| NocNodes.ConfigureWorkload | 02_Core_Systems/noc_node_class.py:146-222 | ZeroDivisionError exactly on an empty mesh; otherwise the generator kind matches the position's role |
| NocNodes.NewNode | 02_Core_Systems/noc_node_class.py:14-52 | a memory node has a controller over the whole space and no workload; a compute node a workload and no controller |
| NocNodes.CreateNode | 02_Core_Systems/noc_node_class.py:14-52 | the constructed node object has the state NewNode describes, or the same exception |
| NocNodes.NoCNode.constructor | 02_Core_Systems/noc_node_class.py:14-52 | the node object holds exactly the fields of the node value it is built from |
| NocNodes.InfoReflectsRole | 02_Core_Systems/noc_node_class.py:285-298 | get_info reports the memory description exactly for memory nodes, and never the "no workload" fallback |
| NocNodes.ShareInside | 02_Core_Systems/noc_node_class.py:146-222 | every node's share ends inside the 512 MiB space |
| NocNodes.WorkloadWithinSharedMemory | 02_Core_Systems/noc_node_class.py:146-222 | every address a workload names lies in the shared space |
| NocNodes.WorkloadShares | 02_Core_Systems/noc_node_class.py:146-222 | which node's share each role's workload addresses |
| NocNodes.RemoteTargetsDiffer | 02_Core_Systems/noc_node_class.py:146-222 | with two or more nodes the random reader and the border streams target another node's share |
| NocNodes.SharesDisjoint | 02_Core_Systems/noc_node_class.py:146-222 | shares of distinct nodes do not overlap |
| NocMesh.RangeLayout | 02_Core_Systems/noc_node_class.py:450-475 | the mapping's ranges tile the shared space from 0: equal sizes, consecutive, inside the space |
| NocMesh.RangesDisjoint | 02_Core_Systems/noc_node_class.py:450-475 | ranges of distinct ranks do not overlap |
| NocMesh.NoCMesh.constructor | 02_Core_Systems/noc_node_class.py:328-366 | the sizes and memory set stored, every node created, linked and mapped |
| NocMesh.NoCMesh.CreateNodes | 02_Core_Systems/noc_node_class.py:384-409 | node i is created at (i % X, i // X), a memory node exactly when i is in the set; the counts are returned |
| NocMesh.NoCMesh.BuildMeshConnections | 02_Core_Systems/noc_node_class.py:411-448 | the mesh links are appended and the memory ranges assigned |
| NocMesh.NoCMesh.ConfigureMemoryMapping | 02_Core_Systems/noc_node_class.py:450-475 | the r-th memory node gets the r-th of k equal ranges; compute nodes are untouched; no memory nodes means no change |
| NocMesh.NoCMesh.GetNode | 02_Core_Systems/noc_node_class.py:477-481 | a node exactly for valid list indices |
| NocMesh.GetNodeFindsId | 02_Core_Systems/noc_node_class.py:384-409 | in a built mesh get_node finds exactly the ids below X*Y, each node with its id, position and role |
| NocMesh.NodePartition | 02_Core_Systems/noc_node_class.py:487-493 | compute and memory nodes partition the nodes; one memory node per memory id below X*Y |
| NocMesh.DefaultMeshHasFourMemoryNodes | 02_Core_Systems/noc_node_class.py:347-355 | with the default corners a mesh at least 2x2 has four memory nodes and X*Y-4 compute nodes |
| NocMesh.MeshLinkCount | 02_Core_Systems/noc_node_class.py:411-448 | a built mesh has (X-1)*Y + X*(Y-1) links, each joining adjacent routers |
| NocMesh.MemoryNodesAscending | 02_Core_Systems/noc_node_class.py:491-493 | the memory nodes are listed in ascending id |
| NocMesh.MemoryMapLayout | 02_Core_Systems/noc_node_class.py:450-475 | the memory nodes' ranges are disjoint, consecutive from address 0 and inside the shared space |
| NocMesh.MemoryRangeAt | 02_Core_Systems/noc_node_class.py:450-475 | every memory node, a single one included, holds the a-th range of 512 MiB // k addresses, inside the shared space; a lone memory node holds all of it |
| NocLegacy.NewNode | 02_Core_Systems/deprecated/noc_node_class.py:14-44 | a CPU window exactly for compute nodes, a memory controller range exactly for memory nodes |
| NocLegacy.InfoReflectsRole | 02_Core_Systems/deprecated/noc_node_class.py:120-133 | the type tag is "memory" exactly for memory nodes; a memory controller serves 128 MiB |
| NocLegacy.CpuWindowLayout | 02_Core_Systems/deprecated/noc_node_class.py:64-65 | each CPU window holds 4096 addresses, and id+1's window starts right after id's |
| NocLegacy.CpuWindowsDisjoint | 02_Core_Systems/deprecated/noc_node_class.py:64-65 | a lower id has a lower, non-overlapping window |
| NocLegacy.NoCMesh.constructor | 02_Core_Systems/deprecated/noc_node_class.py:142-174 | the sizes and memory set stored, and one node per id created |
| NocLegacy.NoCMesh.CreateNodes | 02_Core_Systems/deprecated/noc_node_class.py:176-186 | node i is the node for id i at (i % X, i // X), a memory node exactly when i is in the set |
| NocLegacy.GetNodeFindsId | 02_Core_Systems/deprecated/noc_node_class.py:188-192 | get_node finds exactly ids below X*Y, with that id, position, role and CPU window |
| NocLegacy.NodePartition | 02_Core_Systems/deprecated/noc_node_class.py:198-204 | compute and memory nodes partition the nodes; one memory node per memory id below X*Y |
| NocLegacy.DefaultMeshHasFourMemoryNodes | 02_Core_Systems/deprecated/noc_node_class.py:161-169 | with the default corners a mesh at least 2x2 has four memory nodes |
| NocLegacy.ComputeWindowsDisjoint | 02_Core_Systems/deprecated/noc_node_class.py:176-186 | two different compute nodes have non-overlapping CPU windows |
| MeshEfficiency.HopsIsMeshDistance | 04_Analysis_Tools/analyze_cpu_system.py:153-171 | the tool's hop count is the mesh distance, symmetric, zero only for the same position |
| MeshEfficiency.SourceRow | 04_Analysis_Tools/analyze_cpu_system.py:158-164 | source node 4r+c contributes 4 times the axis sums of its column and its row |
| MeshEfficiency.TotalHopsValue | 04_Analysis_Tools/analyze_cpu_system.py:153-171 | the hops over all ordered pairs of distinct nodes add up to 640 |
| MeshEfficiency.RowPass | 04_Analysis_Tools/analyze_cpu_system.py:158-164 | the inner loop sums source i's hops to every other node over 15 pairs |
| MeshEfficiency.PairSums | 04_Analysis_Tools/analyze_cpu_system.py:157-164 | the outer loop sums the hops over every source and counts 16*15 pairs |
| MeshEfficiency.CalculateMeshEfficiency | 04_Analysis_Tools/analyze_cpu_system.py:153-171 | 240 pairs and 640 hops: an average of 8/3 hops per pair |

## Left out

- Timestamps and latencies (`time.time()`), averages and ratios as floats: the average hop count is a fraction (total, received); congestion is the integer test 2*forwarded > sent + received + 1; the mesh-efficiency quotient is stated as 640 * 3 == 240 * 8.
- Printing, `verbose` output, report files, `os.makedirs`, `export_sst_statistics` file writing, `print_statistics`, `print_topology`, `print_summary`, `generate_traffic_report`: output only.
- SST calls (`sst.Component`, `sst.Link`, `addParams`, `setSubComponent`, `enableAllStatistics`): components are records of their parameters; links are name and port records. The router, cache and memory-controller parameter sets, `_create_router`, `_create_memory_hierarchy`, `_create_network_interface`, `_connect_components`, `connect_to_router`, `get_components`, `get_all_nodes`, the `get_router`/`get_cpu`/`get_cache`/`get_memory_controller` accessors and the NoC network component are not modelled beyond their presence.
- `enable_statistics`, `enable_all_statistics`, `setup_statistics_output`, `create_communication_demo`: they only call SST statistics APIs or print.
- The test functions and `__main__` blocks (random traffic, demos) are not part of this model.
- `_handle_memory_request` and `simulate_cpu_cycle` only print or do nothing, and are left out.
- Negative mesh sizes: the sizes are `nat`.
- Aliasing of the shared `topology_config` object between nodes: the configuration is a value.
- Dictionary insertion order is modelled where the source iterates a dictionary (the node dictionaries, the output-queue dictionary, the per-node report table). Python's sort of the report's node table is not modelled.
- SimpleNet.TransferDir / SimpleMesh.Mesh4x4.TransferDir: neighbours are stored as coordinates, not object references. The branch for a neighbour coordinate missing from the node map has no counterpart in the source (which only tests `if neighbor:`), and the method's readiness precondition (every neighbour coordinate is in the map) makes it unreachable.
- NocNodes.ConfigureWorkload: when X*Y exceeds 512 Mi nodes each share is empty (`memory_per_node` is 0); the workload is still computed, but WorkloadWithinSharedMemory is proved only for meshes of at most 512 Mi nodes.
- NocMesh.MemoryMapLayout: stated for at most 512 Mi memory nodes, when every range is non-empty.
- NocMesh.NoCMesh.BuildMeshConnections: the links are the same name-and-port records as the SST builders'; the link latency and bandwidth strings are not attached to them.
- HybridMesh.HybridMirandaMesh.constructor: the constructor accepts a topology type different from its configuration's (wiring follows the former, routing the latter). The object invariant then keeps only ids, visit order and links in range; nothing about conservation or delivery is proved for such a mismatched object (on a 4-wide mesh wired as a mesh but routed as a torus, a packet from x = 0 to x = 3 is sent WEST to a missing neighbour and stays queued).
- HybridMesh.HybridMirandaMesh.GetNodeByPosition: only the mesh and torus topologies exist in the model, so the `None` branch for another topology type is absent.

## Findings

| source | as written | input that shows it | evidently intended | confidence | as-written member | corrected member |
|---|---|---|---|---|---|---|
| 02_Core_Systems/hybrid_miranda_mesh.py:1015-1020 | the id y*X+x is looked up without checking x and y against the grid | (x, y) = (X, 0) on any mesh with at least two rows returns the node at (0, 1); (-1, 1) returns the node at (X-1, 0) | positions outside the grid name no node | high, not executed | HybridMesh.PositionAliasing | HybridMesh.NodeAtPositionCorrect |
| 02_Core_Systems/deprecated/miranda_cpu_mesh_system.py:669-670 | the pattern window is min(targets) MiB to the end of the max(targets)-th MiB | a single target t: the window [t MiB, (t+1) MiB - 1] lies wholly below t's own window [(t+1) MiB, (t+2) MiB - 1] from `get_node_address_range` (lines 727-728) | the window from the first target's address window to the end of the last's | medium, not executed | MirandaComm.CommWindowMissesTarget | MirandaComm.IntendedCommWindowCovers |
