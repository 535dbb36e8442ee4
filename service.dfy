/**
 * The per-instance state of the graph service and the operations that read
 * and update it: the 16 ms update gate, batched position updates from
 * clients, the 50 ms node-position cache, one tick of each of the two loops
 * (physics and broadcast), paginated reads and the lazy accelerator set-up.
 *
 * Time is an integer millisecond clock passed in by the caller; the
 * accelerator is an oracle of call outcomes.
 */
module Service {
  import opened Wrappers
  import opened GraphTypes
  import Physics

  const UpdateRateLimitMs: nat := 16
  const NodePositionCacheTtlMs: nat := 50

  /** `Instant::duration_since`, which saturates at zero for an earlier instant. */
  function Elapsed(now: nat, since: nat): (r: nat)
    ensures now >= since ==> r + since == now
    ensures now < since ==> r == 0
  {
    if now >= since then now - since else 0
  }

  /** The rate-limit verdict: too soon after the last accepted update. */
  predicate Limited(last: nat, now: nat) {
    Elapsed(now, last) < UpdateRateLimitMs
  }

  // ---------------------------------------------------------------------------
  // Position updates from clients

  /**
   * An accepted update replaces the stored node with the client's node, except
   * that mass, flags and metadata stay those of the stored node.
   */
  function Resolve(existing: Node, update: Node): (r: Node)
    ensures r.data.mass == existing.data.mass && r.data.flags == existing.data.flags
    ensures r.metadata == existing.metadata
    ensures r.data.position == update.data.position && r.data.velocity == update.data.velocity
    ensures r.id == update.id && r.nodeLabel == update.nodeLabel && r.metadataId == update.metadataId
  {
    update.(data := update.data.(mass := existing.data.mass, flags := existing.data.flags),
            metadata := existing.metadata)
  }

  /** One update of a batch at time `now`: gated first, then applied only to a known id. */
  function UpdateStep(state: (nat, map<nat, Node>), u: (nat, Node), now: nat): (nat, map<nat, Node>) {
    var (last, m) := state;
    if Limited(last, now) then (last, m)
    else if u.0 in m then (now, m[u.0 := Resolve(m[u.0], u.1)])
    else (now, m)
  }

  /** A whole batch, item `k` checked against the clock reading `times[k]`. */
  function ApplyUpdates(last: nat, m: map<nat, Node>, updates: seq<(nat, Node)>, times: seq<nat>): (r: (nat, map<nat, Node>))
    requires |times| == |updates|
    ensures r.1.Keys == m.Keys
    decreases |updates|
  {
    if |updates| == 0 then (last, m)
    else
      var n := |updates| - 1;
      UpdateStep(ApplyUpdates(last, m, updates[..n], times[..n]), updates[n], times[n])
  }

  /** After a batch every entry keeps its mass, flags and metadata. */
  lemma {:induction false} UpdatesKeepAttributes(last: nat, m: map<nat, Node>, updates: seq<(nat, Node)>, times: seq<nat>)
    requires |times| == |updates|
    ensures var r := ApplyUpdates(last, m, updates, times).1;
            forall id :: id in m ==>
              r[id].data.mass == m[id].data.mass && r[id].data.flags == m[id].data.flags &&
              r[id].metadata == m[id].metadata
    decreases |updates|
  {
    if |updates| > 0 {
      var n := |updates| - 1;
      UpdatesKeepAttributes(last, m, updates[..n], times[..n]);
    }
  }

  /** The gate only moves forward, and only to the clock reading of an update it accepted. */
  lemma {:induction false} GateNeverMovesBack(last: nat, m: map<nat, Node>, updates: seq<(nat, Node)>, times: seq<nat>)
    requires |times| == |updates|
    ensures var last' := ApplyUpdates(last, m, updates, times).0;
            last' >= last && (last' != last ==> last' in times)
    decreases |updates|
  {
    if |updates| > 0 {
      var n := |updates| - 1;
      GateNeverMovesBack(last, m, updates[..n], times[..n]);
    }
  }

  /**
   * Within a burst read at one instant the gate accepts at most the first
   * update: the rest are limited because no time has passed since it.
   */
  lemma {:induction false} BurstAppliesOnlyFirst(last: nat, m: map<nat, Node>, updates: seq<(nat, Node)>, t: nat)
    requires |updates| > 0
    ensures var times := seq(|updates|, _ => t);
            ApplyUpdates(last, m, updates, times) == UpdateStep((last, m), updates[0], t)
    decreases |updates|
  {
    var times := seq(|updates|, _ => t);
    var n := |updates| - 1;
    if n > 0 {
      BurstAppliesOnlyFirst(last, m, updates[..n], t);
      assert times[..n] == seq(n, _ => t);
      var first := UpdateStep((last, m), updates[0], t);
      assert first.0 == last || first.0 == t;
      assert first.0 == last ==> Limited(last, t);
    } else {
      assert updates[..0] == [] && times[..0] == [];
    }
  }

  /** Every graph node with a map entry takes that entry's data; the rest stay as they are. */
  function SyncFromMap(nodes: seq<Node>, m: map<nat, Node>): (r: seq<Node>)
    ensures |r| == |nodes|
    ensures forall i :: 0 <= i < |nodes| ==>
              r[i] == nodes[i].(data := if nodes[i].id in m then m[nodes[i].id].data else nodes[i].data)
  {
    seq(|nodes|, i requires 0 <= i < |nodes| =>
      nodes[i].(data := if nodes[i].id in m then m[nodes[i].id].data else nodes[i].data))
  }

  /** After a sync, the graph and the map agree on every id they share, and nothing but data changes. */
  lemma SyncAgrees(nodes: seq<Node>, m: map<nat, Node>)
    ensures var r := SyncFromMap(nodes, m);
            (forall i :: 0 <= i < |r| && r[i].id in m ==> r[i].data == m[r[i].id].data) &&
            (forall i :: 0 <= i < |r| ==> r[i].(data := nodes[i].data) == nodes[i])
  {
  }

  // ---------------------------------------------------------------------------
  // Position cache

  type CacheEntry = (seq<Node>, nat)

  /** The cached copy is served iff caching is on, an entry exists and it is younger than 50 ms. */
  predicate CacheFresh(cacheEnabled: bool, cache: Option<CacheEntry>, now: nat) {
    cacheEnabled && cache.Some? && Elapsed(now, cache.value.1) < NodePositionCacheTtlMs
  }

  /** `get_node_positions` as a value: the nodes returned and the cache afterwards. */
  function Positions(cacheEnabled: bool, cache: Option<CacheEntry>, nodes: seq<Node>, now: nat): (r: (seq<Node>, Option<CacheEntry>))
    ensures CacheFresh(cacheEnabled, cache, now) ==> r == (cache.value.0, cache)
    ensures !CacheFresh(cacheEnabled, cache, now) ==>
              r.0 == nodes && r.1 == (if cacheEnabled then Some((nodes, now)) else cache)
  {
    if CacheFresh(cacheEnabled, cache, now) then (cache.value.0, cache)
    else (nodes, if cacheEnabled then Some((nodes, now)) else cache)
  }

  /**
   * Staleness is bounded: once a read has refreshed the cache at `t`, any read
   * before `t + 50` returns that snapshot whatever the graph holds by then,
   * and any read from `t + 50` on returns the graph's current nodes.
   */
  lemma CacheStalenessBounded(cache: Option<CacheEntry>, nodes: seq<Node>, t: nat, later: seq<Node>, t': nat)
    requires !CacheFresh(true, cache, t) && t <= t'
    ensures var c := Positions(true, cache, nodes, t).1;
            (t' < t + NodePositionCacheTtlMs ==> Positions(true, c, later, t').0 == nodes) &&
            (t' >= t + NodePositionCacheTtlMs ==> Positions(true, c, later, t') == (later, Some((later, t'))))
  {
  }

  /** With caching off, every read sees the graph's current nodes and the cache is never filled. */
  lemma CacheDisabledReadsThrough(cache: Option<CacheEntry>, nodes: seq<Node>, now: nat)
    ensures Positions(false, cache, nodes, now) == (nodes, cache)
  {
  }

  // ---------------------------------------------------------------------------
  // Pagination

  type U32 = x: nat | x < 0x1_0000_0000

  const U32Max: U32 := 0xFFFF_FFFF

  datatype Page = Page(
    nodes: seq<Node>,
    edges: seq<Edge>,
    metadata: map<string, Metadata>,
    totalNodes: nat,
    totalEdges: nat,
    totalPages: U32,
    currentPage: U32)

  /** The subtraction `end - start` when the first index lies past the end. */
  datatype PageError = StartPastEnd(start: nat, total: nat)

  /**
   * `ceil(total / page_size)` through float division and a saturating cast:
   * division by zero gives infinity (saturating to the largest u32) or, for
   * 0/0, NaN (cast to 0).
   */
  function TotalPages(total: nat, pageSize: U32): (r: U32)
    ensures pageSize > 0 && (total + pageSize - 1) / pageSize <= U32Max ==>
              r * pageSize >= total && (r == 0 || (r - 1) * pageSize < total)
  {
    if pageSize == 0 then (if total == 0 then 0 else U32Max)
    else
      var c := (total + pageSize - 1) / pageSize;
      if c > U32Max then U32Max else c
  }

  function Min(a: nat, b: nat): nat { if a <= b then a else b }

  function IdsOf(nodes: seq<Node>): (r: set<nat>)
    ensures forall id :: id in r <==> HasId(nodes, id)
  {
    set i | 0 <= i < |nodes| :: nodes[i].id
  }

  /** Keep, in order, the edges with at least one endpoint in `ids`. */
  function Touching(edges: seq<Edge>, ids: set<nat>): (r: seq<Edge>)
    ensures forall e :: e in r <==> e in edges && (e.source in ids || e.target in ids)
    ensures |r| <= |edges|
  {
    if |edges| == 0 then []
    else
      var rest := Touching(edges[1..], ids);
      if edges[0].source in ids || edges[0].target in ids then [edges[0]] + rest else rest
  }

  /**
   * `Touching` is the order-preserving filter: it distributes over
   * concatenation, so the kept edges keep their order and their duplicates.
   */
  lemma {:induction false} TouchingAppend(a: seq<Edge>, b: seq<Edge>, ids: set<nat>)
    ensures Touching(a + b, ids) == Touching(a, ids) + Touching(b, ids)
    decreases |a|
  {
    if |a| > 0 {
      assert (a + b)[1..] == a[1..] + b;
      TouchingAppend(a[1..], b, ids);
    } else {
      assert a + b == b;
    }
  }

  /**
   * `get_paginated_graph_data`: the slice of nodes on the page, the edges
   * touching them, and the totals. A page whose first index lies past the end
   * of the node list is an error.
   */
  function Paginate(graph: GraphData, page: U32, pageSize: U32): (r: Result<Page, PageError>)
    ensures r.Err? <==> page * pageSize > |graph.nodes|
    ensures r.Ok? ==>
              var end := Min((page + 1) * pageSize, |graph.nodes|);
              r.value.nodes == graph.nodes[page * pageSize .. end] &&
              |r.value.nodes| <= pageSize &&
              (forall e :: e in r.value.edges <==> e in graph.edges && (HasId(r.value.nodes, e.source) || HasId(r.value.nodes, e.target))) &&
              r.value.totalNodes == |graph.nodes| && r.value.totalEdges == |graph.edges| &&
              r.value.currentPage == page
  {
    var total := |graph.nodes|;
    var start := page * pageSize;
    var end := Min((page + 1) * pageSize, total);
    if start > end then Err(StartPastEnd(start, total))
    else
      var slice := graph.nodes[start..end];
      Ok(Page(slice, Touching(graph.edges, IdsOf(slice)), graph.metadata,
              total, |graph.edges|, TotalPages(total, pageSize), page))
  }

  /** Every node lies on exactly the page its index names, at the offset within it. */
  lemma PageHoldsIndex(graph: GraphData, pageSize: U32, i: nat)
    requires pageSize > 0 && i < |graph.nodes| && i / pageSize < 0x1_0000_0000
    ensures var r := Paginate(graph, i / pageSize, pageSize);
            r.Ok? && i % pageSize < |r.value.nodes| && r.value.nodes[i % pageSize] == graph.nodes[i]
  {
    var p := i / pageSize;
    assert p * pageSize + i % pageSize == i;
    assert (p + 1) * pageSize == p * pageSize + pageSize;
  }

  /** The pages that are not errors are exactly those below the page count. */
  lemma PagesWithinCount(graph: GraphData, page: U32, pageSize: U32)
    requires pageSize > 0 && (|graph.nodes| + pageSize - 1) / pageSize <= U32Max
    ensures var r := Paginate(graph, page, pageSize);
            (page < TotalPages(|graph.nodes|, pageSize) ==> r.Ok? && |r.value.nodes| > 0) &&
            (r.Ok? && |r.value.nodes| > 0 ==> page < TotalPages(|graph.nodes|, pageSize))
  {
    var total := |graph.nodes|;
    var c := TotalPages(total, pageSize);
    if page < c {
      assert page <= c - 1;
      MulMonotone(page, c - 1, pageSize);
    } else {
      MulMonotone(c, page, pageSize);
    }
  }

  lemma MulMonotone(a: nat, b: nat, k: nat)
    requires a <= b
    ensures a * k <= b * k
  {
  }

  // ---------------------------------------------------------------------------
  // Accelerator set-up

  /**
   * The outcomes of the accelerator calls one `update_positions` can make:
   * creating an instance (its handle, or an error), the test computation
   * `initialize_gpu` runs on it, and the force computation proper.
   */
  datatype GpuBackend = GpuBackend(create: Result<nat, string>, testCompute: Outcome<string>, computeForces: Outcome<string>)

  const NotInitialized: string := "GPU compute not initialized"

  /** `initialize_gpu`: keep an existing instance; else create one and accept it only after a passing test. */
  function InitGpu(gpu: Option<nat>, b: GpuBackend): (r: (Option<nat>, Outcome<string>))
    ensures gpu.Some? ==> r == (gpu, Pass)
    ensures r.1 == Pass <==> r.0.Some?
    ensures r.0.Some? && gpu.None? ==> b.create == Ok(r.0.value) && b.testCompute == Pass
  {
    if gpu.Some? then (gpu, Pass)
    else match b.create
      case Err(e) => (None, Fail("GPU initialization failed: " + e))
      case Ok(h) =>
        match b.testCompute
          case Fail(e) => (None, Fail("GPU test computation failed: " + e))
          case Pass => (Some(h), Pass)
  }

  /**
   * `update_positions`: compute forces on the instance, creating it first
   * when there is none; after a creation that succeeded the recursive call
   * finds the instance, so the "not initialized" error cannot be returned.
   */
  function UpdatePositionsOf(gpu: Option<nat>, b: GpuBackend): (r: (Option<nat>, Outcome<string>))
    ensures r.0.Some? ==> r.1 == b.computeForces
    ensures r.0.None? ==> gpu.None? && r.1 == InitGpu(gpu, b).1 && r.1.Fail?
    ensures gpu.Some? ==> r.0 == gpu
    decreases if gpu.Some? then 0 else 1
  {
    if gpu.Some? then (gpu, b.computeForces)
    else
      var (g, init) := InitGpu(gpu, b);
      if init.Fail? then (g, init)
      else UpdatePositionsOf(g, b)
  }

  /**
   * The "not initialized" error is dead code: without an instance the only
   * failures are the two set-up errors, and with one the computation's own.
   */
  lemma NotInitializedUnreachable(gpu: Option<nat>, b: GpuBackend)
    requires b.computeForces != Fail(NotInitialized)
    ensures UpdatePositionsOf(gpu, b).1 != Fail(NotInitialized)
  {
    var r := UpdatePositionsOf(gpu, b);
    if r.0.None? {
      match b.create {
        case Err(e) =>
          assert r.1 == Fail("GPU initialization failed: " + e);
          assert ("GPU initialization failed: " + e)[4] != NotInitialized[4];
        case Ok(_) =>
          match b.testCompute {
            case Fail(e) =>
              assert r.1 == Fail("GPU test computation failed: " + e);
              assert ("GPU test computation failed: " + e)[4] != NotInitialized[4];
            case Pass =>
          }
      }
    }
  }

  /** Failed set-up leaves no instance, and set-up is idempotent once an instance exists. */
  lemma InitGpuIdempotent(gpu: Option<nat>, b: GpuBackend, b': GpuBackend)
    ensures var r := InitGpu(gpu, b);
            (r.1.Fail? ==> r.0 == None) && InitGpu(r.0, b') == (if r.0.Some? then (r.0, Pass) else InitGpu(None, b'))
  {
  }

  // ---------------------------------------------------------------------------
  // The service instance

  /** A graph-service instance: the graph, the id-indexed node map, the cache, the gate and the accelerator. */
  class GraphService {
    var graph: GraphData
    var nodeMap: map<nat, Node>
    var cache: Option<CacheEntry>
    var lastUpdate: nat
    var cacheEnabled: bool
    var gpu: Option<nat>

    /** `new`: an empty graph and map, caching on, no cache entry, the gate at the creation time. */
    constructor(now: nat, gpu: Option<nat>)
      ensures graph == EmptyGraph && nodeMap == map[] && cache == None
      ensures lastUpdate == now && cacheEnabled && this.gpu == gpu
    {
      this.graph := EmptyGraph;
      this.nodeMap := map[];
      this.cache := None;
      this.lastUpdate := now;
      this.cacheEnabled := true;
      this.gpu := gpu;
    }

    /** `should_rate_limit`: refuse within 16 ms of the last accepted update; accepting moves the gate. */
    method ShouldRateLimit(now: nat) returns (limited: bool)
      modifies this
      ensures limited <==> Limited(old(lastUpdate), now)
      ensures lastUpdate == if limited then old(lastUpdate) else now
      ensures graph == old(graph) && nodeMap == old(nodeMap) && cache == old(cache)
      ensures cacheEnabled == old(cacheEnabled) && gpu == old(gpu)
    {
      if Elapsed(now, lastUpdate) < UpdateRateLimitMs {
        return true;
      }
      lastUpdate := now;
      limited := false;
    }

    /**
     * `update_node_positions`: gate and apply each update in turn, then copy
     * the map's data back into the graph's nodes, and return the broadcast.
     */
    method UpdateNodePositions(updates: seq<(nat, Node)>, times: seq<nat>) returns (broadcast: seq<(nat, NodeData)>)
      requires |times| == |updates|
      modifies this
      ensures (lastUpdate, nodeMap) == ApplyUpdates(old(lastUpdate), old(nodeMap), updates, times)
      ensures graph == old(graph).(nodes := SyncFromMap(old(graph.nodes), nodeMap))
      ensures broadcast == Project(graph.nodes)
      ensures cache == old(cache) && cacheEnabled == old(cacheEnabled) && gpu == old(gpu)
    {
      var i := 0;
      while i < |updates|
        invariant 0 <= i <= |updates|
        invariant (lastUpdate, nodeMap) == ApplyUpdates(old(lastUpdate), old(nodeMap), updates[..i], times[..i])
        invariant graph == old(graph) && cache == old(cache) && cacheEnabled == old(cacheEnabled) && gpu == old(gpu)
      {
        assert updates[..i + 1][..i] == updates[..i] && times[..i + 1][..i] == times[..i];
        var limited := ShouldRateLimit(times[i]);
        if !limited && updates[i].0 in nodeMap {
          nodeMap := nodeMap[updates[i].0 := Resolve(nodeMap[updates[i].0], updates[i].1)];
        }
        i := i + 1;
      }
      assert updates[..i] == updates && times[..i] == times;
      SyncNodes();
      broadcast := Project(graph.nodes);
    }

    /** The sync loop: every node with a map entry takes that entry's data. */
    method SyncNodes()
      modifies this
      ensures graph == old(graph).(nodes := SyncFromMap(old(graph.nodes), nodeMap))
      ensures nodeMap == old(nodeMap) && lastUpdate == old(lastUpdate)
      ensures cache == old(cache) && cacheEnabled == old(cacheEnabled) && gpu == old(gpu)
    {
      var nodes := graph.nodes;
      var i := 0;
      while i < |nodes|
        invariant 0 <= i <= |nodes| && |nodes| == |old(graph.nodes)|
        invariant forall j :: 0 <= j < i ==> nodes[j] == SyncFromMap(old(graph.nodes), nodeMap)[j]
        invariant forall j :: i <= j < |nodes| ==> nodes[j] == old(graph.nodes)[j]
      {
        if nodes[i].id in nodeMap {
          nodes := nodes[i := nodes[i].(data := nodeMap[nodes[i].id].data)];
        }
        i := i + 1;
      }
      graph := graph.(nodes := nodes);
    }

    /** `clear_position_cache`: drop the entry. */
    method ClearPositionCache()
      modifies this
      ensures cache == None
      ensures graph == old(graph) && nodeMap == old(nodeMap) && lastUpdate == old(lastUpdate)
      ensures cacheEnabled == old(cacheEnabled) && gpu == old(gpu)
    {
      cache := None;
    }

    /** `get_node_positions`: a fresh cached copy, or the graph's nodes (stored in the cache when caching is on). */
    method GetNodePositions(now: nat) returns (nodes: seq<Node>)
      modifies this
      ensures (nodes, cache) == Positions(cacheEnabled, old(cache), graph.nodes, now)
      ensures graph == old(graph) && nodeMap == old(nodeMap) && lastUpdate == old(lastUpdate)
      ensures cacheEnabled == old(cacheEnabled) && gpu == old(gpu)
    {
      if cacheEnabled && cache.Some? {
        var (cached, timestamp) := cache.value;
        if Elapsed(now, timestamp) < NodePositionCacheTtlMs {
          return cached;
        }
      }
      nodes := graph.nodes;
      if cacheEnabled {
        cache := Some((nodes, now));
      }
    }

    /**
     * One iteration of the physics loop after its shutdown check: with
     * physics enabled, the accelerator path with retries (when the loop was
     * started with an accelerator) or the CPU step; a broadcast follows a
     * successful layout; then, after the 16 ms sleep, the cache is cleared.
     */
    method PhysicsTick(enabled: bool, accel: Option<nat -> Physics.GpuAttempt>,
                       p: Physics.SimulationParams, sqrt: Physics.SquareRoot)
      returns (broadcast: Option<seq<(nat, NodeData)>>)
      modifies this
      ensures broadcast.Some? <==> enabled
      ensures broadcast.Some? ==> broadcast.value == Project(graph.nodes)
      ensures !enabled ==> graph == old(graph) && nodeMap == old(nodeMap)
      ensures enabled && accel.None? ==>
                graph == old(graph).(nodes := Physics.CpuStep(p, sqrt, old(graph.nodes), old(graph.edges))) &&
                nodeMap == MirrorInto(old(nodeMap), graph.nodes)
      ensures enabled && accel.Some? ==>
                Physics.RetryFrom(0, accel.value, old(graph), old(nodeMap), p, sqrt, graph, nodeMap)
      ensures cache == None
      ensures lastUpdate == old(lastUpdate) && cacheEnabled == old(cacheEnabled) && gpu == old(gpu)
    {
      broadcast := None;
      if enabled {
        var r, g, m;
        match accel {
          case Some(oracle) =>
            var delays, attempts, usedCpu;
            r, g, m, delays, attempts, usedCpu := Physics.CalculateLayoutWithRetry(oracle, graph, nodeMap, p, sqrt);
          case None =>
            r, g, m := Physics.CalculateLayoutCpu(graph, nodeMap, p, sqrt);
        }
        graph, nodeMap := g, m;
        if r.Pass? {
          broadcast := Some(Project(graph.nodes));
        }
      }
      cache := None;
    }

    /** One iteration of the 100 ms broadcast loop after its shutdown check: send the positions unless there are none. */
    method BroadcastTick(now: nat) returns (sent: Option<seq<(nat, NodeData)>>)
      modifies this
      ensures var (nodes, c) := Positions(cacheEnabled, old(cache), graph.nodes, now);
              cache == c && sent == (if |nodes| == 0 then None else Some(Project(nodes)))
      ensures graph == old(graph) && nodeMap == old(nodeMap) && lastUpdate == old(lastUpdate)
      ensures cacheEnabled == old(cacheEnabled) && gpu == old(gpu)
    {
      var nodes := GetNodePositions(now);
      sent := if |nodes| == 0 then None else Some(Project(nodes));
    }

    /** `get_paginated_graph_data` on the current graph. */
    method GetPaginatedGraphData(page: U32, pageSize: U32) returns (r: Result<Page, PageError>)
      ensures r == Paginate(graph, page, pageSize)
    {
      r := Paginate(graph, page, pageSize);
    }

    /** `initialize_gpu`. */
    method InitializeGpu(b: GpuBackend) returns (r: Outcome<string>)
      modifies this
      ensures (gpu, r) == InitGpu(old(gpu), b)
      ensures graph == old(graph) && nodeMap == old(nodeMap) && cache == old(cache)
      ensures lastUpdate == old(lastUpdate) && cacheEnabled == old(cacheEnabled)
    {
      if gpu.Some? {
        return Pass;
      }
      match b.create {
        case Err(e) =>
          r := Fail("GPU initialization failed: " + e);
        case Ok(h) =>
          match b.testCompute {
            case Fail(e) =>
              r := Fail("GPU test computation failed: " + e);
            case Pass =>
              gpu := Some(h);
              r := Pass;
          }
      }
    }

    /** `update_positions`. */
    method UpdatePositions(b: GpuBackend) returns (r: Outcome<string>)
      modifies this
      ensures (gpu, r) == UpdatePositionsOf(old(gpu), b)
      ensures graph == old(graph) && nodeMap == old(nodeMap) && cache == old(cache)
      ensures lastUpdate == old(lastUpdate) && cacheEnabled == old(cacheEnabled)
    {
      if gpu.Some? {
        return b.computeForces;
      }
      var init := InitializeGpu(b);
      if init.Fail? {
        return init;
      }
      r := b.computeForces;
    }
  }
}
