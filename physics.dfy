/**
 * One layout step of the graph service: the accelerator path (push the graph,
 * push the parameters, step, read back the node records), the CPU
 * force-directed fallback, and the retry loop with exponential back-off that
 * tries the accelerator three times before falling back.
 *
 * f32 arithmetic is modelled as exact `real` arithmetic and the square root is
 * a parameter of type `SquareRoot`, of which only positivity on positive
 * arguments is assumed (that is all the divisions need).
 */
module Physics {
  import opened Wrappers
  import opened GraphTypes

  /** The simulation parameters the CPU step reads. */
  datatype SimulationParams = SimulationParams(
    iterations: nat,
    springStrength: real,
    repulsion: real,
    damping: real,
    maxRepulsionDistance: real,
    massScale: real,
    timeStep: real)

  /** A square-root function: positive on positive arguments. */
  type SquareRoot = f: real -> real | forall x :: x > 0.0 ==> f(x) > 0.0
    witness (x: real) => 1.0

  /** Pairs closer than this (squared) exert no force on each other. */
  const MinDistanceSquared: real := 0.0001

  function Dot(a: Vec3, b: Vec3): real { a.x * b.x + a.y * b.y + a.z * b.z }

  /** A node's repulsion mass: the 0..255 mass byte scaled to 0..10, times the mass scale. */
  function RepulsionMass(p: SimulationParams, d: NodeData): real {
    (d.mass as real / 255.0) * 10.0 * p.massScale
  }

  /**
   * The repulsive force node `b` feels from node `a` (node `a` feels its
   * opposite); None when the pair is closer than the minimum or farther than
   * the maximum repulsion distance.
   */
  function RepulsionForce(p: SimulationParams, sqrt: SquareRoot, a: NodeData, b: NodeData): Option<Vec3> {
    var d := Sub(b.position, a.position);
    RepulsionAlong(p, sqrt, d, Dot(d, d), RepulsionMass(p, a), RepulsionMass(p, b))
  }

  /** The repulsion over displacement `d` with squared length `d2` between repulsion masses `ma` and `mb`. */
  function RepulsionAlong(p: SimulationParams, sqrt: SquareRoot, d: Vec3, d2: real, ma: real, mb: real): Option<Vec3> {
    if d2 < MinDistanceSquared then None
    else
      var dist := sqrt(d2);
      if dist > p.maxRepulsionDistance then None
      else Some(Along(d, dist, RepulsionFactor(p, ma, mb, d2)))
  }

  /**
   * The spring force pulling node `a` towards node `b` along an edge of the
   * given weight (node `b` is pulled back by its opposite); None when the
   * endpoints are closer than the minimum distance.
   */
  function SpringForce(p: SimulationParams, sqrt: SquareRoot, a: NodeData, b: NodeData, weight: nat): Option<Vec3> {
    var d := Sub(b.position, a.position);
    SpringAlong(p, sqrt, d, Dot(d, d), weight)
  }

  /** The spring force over displacement `d` with squared length `d2`. */
  function SpringAlong(p: SimulationParams, sqrt: SquareRoot, d: Vec3, d2: real, weight: nat): Option<Vec3> {
    if d2 < MinDistanceSquared then None
    else
      var dist := sqrt(d2);
      Some(Along(d, dist, SpringFactor(p, weight, dist)))
  }

  /** Repulsion strength: the repulsion constant times both masses over the squared distance. */
  function RepulsionFactor(p: SimulationParams, ma: real, mb: real, d2: real): real
    requires d2 != 0.0
  {
    p.repulsion * ma * mb / d2
  }

  /** Spring strength: the spring constant times the edge weight times the distance. */
  function SpringFactor(p: SimulationParams, weight: nat, dist: real): real {
    p.springStrength * weight as real * dist
  }

  /** `forces[i] -= f; forces[j] += f`, in that order. */
  function Push(forces: seq<Vec3>, i: nat, j: nat, f: Vec3): (r: seq<Vec3>)
    requires i < |forces| && j < |forces|
    ensures |r| == |forces|
  {
    var once := forces[i := Sub(forces[i], f)];
    once[j := Add(once[j], f)]
  }

  /** `forces[i] += f; forces[j] -= f`, in that order. */
  function Pull(forces: seq<Vec3>, i: nat, j: nat, f: Vec3): (r: seq<Vec3>)
    requires i < |forces| && j < |forces|
    ensures |r| == |forces|
  {
    var once := forces[i := Add(forces[i], f)];
    once[j := Sub(once[j], f)]
  }

  /** The force of each ordered pair of node positions, by index; None outside the node range or when skipped. */
  type PairForce = (nat, nat) -> Option<Vec3>

  function RepulsionOf(p: SimulationParams, sqrt: SquareRoot, nodes: seq<Node>): PairForce {
    (i: nat, j: nat) =>
      if i < |nodes| && j < |nodes| then RepulsionForce(p, sqrt, nodes[i].data, nodes[j].data) else None
  }

  /** The accumulators after the pair `(i, j)` of the repulsion pass. */
  function RepulsePair(force: PairForce, forces: seq<Vec3>, i: nat, j: nat): (r: seq<Vec3>)
    requires i < |forces| && j < |forces|
    ensures |r| == |forces|
  {
    match force(i, j)
    case None => forces
    case Some(f) => Push(forces, i, j, f)
  }

  /** The accumulators after the pairs `(i, i+1) .. (i, jEnd-1)` of row `i`. */
  function RepulseRow(force: PairForce, forces: seq<Vec3>, i: nat, jEnd: nat): (r: seq<Vec3>)
    requires i < |forces| && jEnd <= |forces|
    ensures |r| == |forces|
    decreases jEnd
  {
    if jEnd <= i + 1 then forces
    else RepulsePair(force, RepulseRow(force, forces, i, jEnd - 1), i, jEnd - 1)
  }

  /** The accumulators after rows `0 .. iEnd-1` of the repulsion pass. */
  function RepulseRows(force: PairForce, forces: seq<Vec3>, iEnd: nat): (r: seq<Vec3>)
    requires iEnd <= |forces|
    ensures |r| == |forces|
  {
    if iEnd == 0 then forces
    else RepulseRow(force, RepulseRows(force, forces, iEnd - 1), iEnd - 1, |forces|)
  }

  /** The accumulators after one edge of the spring pass; an edge whose endpoint is missing adds nothing. */
  function AttractEdge(p: SimulationParams, sqrt: SquareRoot, nodes: seq<Node>, forces: seq<Vec3>, e: Edge): (r: seq<Vec3>)
    requires |forces| == |nodes|
    ensures |r| == |forces|
  {
    match (IndexOfId(nodes, e.source), IndexOfId(nodes, e.target))
    case (Some(i), Some(j)) =>
      (match SpringForce(p, sqrt, nodes[i].data, nodes[j].data, e.weight)
       case None => forces
       case Some(f) => Pull(forces, i, j, f))
    case _ => forces
  }

  /** The accumulators after the spring pass over `edges`, in order. */
  function AttractEdges(p: SimulationParams, sqrt: SquareRoot, nodes: seq<Node>, forces: seq<Vec3>, edges: seq<Edge>): (r: seq<Vec3>)
    requires |forces| == |nodes|
    ensures |r| == |forces|
    decreases |edges|
  {
    if |edges| == 0 then forces
    else AttractEdge(p, sqrt, nodes, AttractEdges(p, sqrt, nodes, forces, edges[..|edges| - 1]), edges[|edges| - 1])
  }

  function Zeros(n: nat): (r: seq<Vec3>)
    ensures |r| == n && forall i :: 0 <= i < n ==> r[i] == Origin
  {
    seq(n, _ => Origin)
  }

  /** The net force on every node: all repulsion pairs, then all springs. */
  function Forces(p: SimulationParams, sqrt: SquareRoot, nodes: seq<Node>, edges: seq<Edge>): (r: seq<Vec3>)
    ensures |r| == |nodes|
  {
    AttractEdges(p, sqrt, nodes, RepulseRows(RepulsionOf(p, sqrt, nodes), Zeros(|nodes|), |nodes|), edges)
  }

  /**
   * Damped explicit Euler integration of one node: the velocity is damped and
   * accelerated first, and the position then advances by the NEW velocity.
   * Mass and flags are kept.
   */
  function Integrate(p: SimulationParams, d: NodeData, f: Vec3): (r: NodeData)
    ensures r.position == Add(d.position, Scale(r.velocity, p.timeStep))
    ensures r.velocity == Add(Scale(d.velocity, p.damping), Scale(f, p.timeStep))
    ensures r.mass == d.mass && r.flags == d.flags
  {
    var v := Vec3(d.velocity.x * p.damping + f.x * p.timeStep,
                  d.velocity.y * p.damping + f.y * p.timeStep,
                  d.velocity.z * p.damping + f.z * p.timeStep);
    d.(velocity := v,
       position := Vec3(d.position.x + v.x * p.timeStep,
                        d.position.y + v.y * p.timeStep,
                        d.position.z + v.z * p.timeStep))
  }

  /**
   * Every node integrated under its own accumulator: ids, labels, metadata,
   * mass and flags, and the order are kept.
   */
  function Integrated(p: SimulationParams, nodes: seq<Node>, forces: seq<Vec3>): (r: seq<Node>)
    requires |forces| == |nodes|
    ensures |r| == |nodes|
    ensures forall i :: 0 <= i < |nodes| ==>
              r[i] == nodes[i].(data := r[i].data) &&
              r[i].data.mass == nodes[i].data.mass && r[i].data.flags == nodes[i].data.flags
  {
    seq(|nodes|, i requires 0 <= i < |nodes| => nodes[i].(data := Integrate(p, nodes[i].data, forces[i])))
  }

  /** The node sequence after one CPU step: every node integrated under its net force. */
  function CpuStep(p: SimulationParams, sqrt: SquareRoot, nodes: seq<Node>, edges: seq<Edge>): seq<Node> {
    Integrated(p, nodes, Forces(p, sqrt, nodes, edges))
  }

  datatype GpuError = GpuError(message: string)

  /**
   * `calculate_layout_cpu`: accumulate forces into a fixed-size buffer, then
   * integrate every node and mirror its data into the id-indexed map. It
   * never fails, and an empty graph is returned as it is.
   */
  method CalculateLayoutCpu(graph: GraphData, nodeMap: map<nat, Node>, p: SimulationParams, sqrt: SquareRoot)
    returns (r: Outcome<GpuError>, graph': GraphData, nodeMap': map<nat, Node>)
    ensures r == Pass
    ensures graph' == graph.(nodes := CpuStep(p, sqrt, graph.nodes, graph.edges))
    ensures nodeMap' == MirrorInto(nodeMap, graph'.nodes)
    ensures |graph.nodes| == 0 ==> graph' == graph && nodeMap' == nodeMap
  {
    if |graph.nodes| == 0 {
      return Pass, graph, nodeMap;
    }
    var forces := AccumulateForces(graph, p, sqrt);
    var nodes;
    nodes, nodeMap' := IntegrateNodes(graph.nodes, forces, nodeMap, p);
    r, graph' := Pass, graph.(nodes := nodes);
  }

  /** The integration loop: each node in turn is integrated and mirrored into the map. */
  method IntegrateNodes(nodes: seq<Node>, forces: seq<Vec3>, nodeMap: map<nat, Node>, p: SimulationParams)
    returns (nodes': seq<Node>, nodeMap': map<nat, Node>)
    requires |forces| == |nodes|
    ensures nodes' == Integrated(p, nodes, forces)
    ensures nodeMap' == MirrorInto(nodeMap, nodes')
  {
    var n := |nodes|;
    nodes' := nodes;
    nodeMap' := nodeMap;
    var i := 0;
    while i < n
      invariant 0 <= i <= n && |nodes'| == n
      invariant forall k :: 0 <= k < i ==> nodes'[k] == nodes[k].(data := Integrate(p, nodes[k].data, forces[k]))
      invariant forall k :: i <= k < n ==> nodes'[k] == nodes[k]
      invariant nodeMap' == MirrorInto(nodeMap, nodes'[..i])
    {
      var data := Integrate(p, nodes'[i].data, forces[i]);
      ghost var before := nodes';
      nodes' := nodes'[i := nodes'[i].(data := data)];
      assert nodes'[..i + 1][..i] == before[..i];
      if nodes'[i].id in nodeMap' {
        nodeMap' := nodeMap'[nodes'[i].id := nodeMap'[nodes'[i].id].(data := nodes'[i].data)];
      }
      i := i + 1;
    }
    assert nodes'[..n] == nodes';
  }

  /** The two force passes of `calculate_layout_cpu` over a zeroed buffer. */
  method AccumulateForces(graph: GraphData, p: SimulationParams, sqrt: SquareRoot) returns (forces: seq<Vec3>)
    ensures forces == Forces(p, sqrt, graph.nodes, graph.edges)
  {
    var buffer := new Vec3[|graph.nodes|](_ => Origin);
    assert buffer[..] == Zeros(|graph.nodes|);
    RepulsionPass(buffer, RepulsionOf(p, sqrt, graph.nodes));
    SpringPass(graph.nodes, graph.edges, buffer, p, sqrt);
    forces := buffer[..];
  }

  /**
   * Every pair `i < j` pushes its two nodes apart, row by row; `force` is the
   * pair force of the graph's nodes (`RepulsionOf`).
   */
  method RepulsionPass(buffer: array<Vec3>, force: PairForce)
    modifies buffer
    ensures buffer[..] == RepulseRows(force, old(buffer[..]), buffer.Length)
  {
    var i := 0;
    while i < buffer.Length
      invariant 0 <= i <= buffer.Length
      invariant buffer[..] == RepulseRows(force, old(buffer[..]), i)
    {
      RepulsionRow(buffer, force, i);
      i := i + 1;
    }
  }

  /** Row `i` of the repulsion pass: the pairs `(i, i+1) .. (i, n-1)`. */
  method RepulsionRow(buffer: array<Vec3>, force: PairForce, i: nat)
    requires i < buffer.Length
    modifies buffer
    ensures buffer[..] == RepulseRow(force, old(buffer[..]), i, buffer.Length)
  {
    var j := i + 1;
    while j < buffer.Length
      invariant i + 1 <= j <= buffer.Length
      invariant buffer[..] == RepulseRow(force, old(buffer[..]), i, j)
    {
      ghost var before := buffer[..];
      match force(i, j) {
        case None =>
        case Some(f) =>
          buffer[i] := Sub(buffer[i], f);
          buffer[j] := Add(buffer[j], f);
          assert buffer[..] == Push(before, i, j, f);
      }
      j := j + 1;
    }
  }

  /** Every edge whose endpoints are both present pulls them together, in edge order. */
  method SpringPass(nodes: seq<Node>, edges: seq<Edge>, buffer: array<Vec3>, p: SimulationParams, sqrt: SquareRoot)
    requires buffer.Length == |nodes|
    modifies buffer
    ensures buffer[..] == AttractEdges(p, sqrt, nodes, old(buffer[..]), edges)
  {
    var k := 0;
    while k < |edges|
      invariant 0 <= k <= |edges|
      invariant buffer[..] == AttractEdges(p, sqrt, nodes, old(buffer[..]), edges[..k])
    {
      assert edges[..k + 1][..k] == edges[..k];
      ghost var before := buffer[..];
      var e := edges[k];
      var s := IndexOfId(nodes, e.source);
      var t := IndexOfId(nodes, e.target);
      if s.Some? && t.Some? {
        match SpringForce(p, sqrt, nodes[s.value].data, nodes[t.value].data, e.weight) {
          case None =>
          case Some(f) =>
            buffer[s.value] := Add(buffer[s.value], f);
            buffer[t.value] := Sub(buffer[t.value], f);
        }
      }
      assert buffer[..] == AttractEdge(p, sqrt, nodes, before, e);
      k := k + 1;
    }
    assert edges[..|edges|] == edges;
  }

  // ---------------------------------------------------------------------------
  // Properties of the CPU step

  /** The componentwise sum of a force buffer. */
  function VecSum(s: seq<Vec3>): Vec3
    decreases |s|
  {
    if |s| == 0 then Origin else Add(VecSum(s[..|s| - 1]), s[|s| - 1])
  }

  /** Overwriting one accumulator changes the sum by exactly the difference. */
  lemma {:induction false} VecSumUpdate(s: seq<Vec3>, i: nat, v: Vec3)
    requires i < |s|
    ensures VecSum(s[i := v]) == Add(Sub(VecSum(s), s[i]), v)
    decreases |s|
  {
    var t := s[i := v];
    if i == |s| - 1 {
      assert t[..|t| - 1] == s[..|s| - 1];
    } else {
      assert t[..|t| - 1] == s[..|s| - 1][i := v];
      VecSumUpdate(s[..|s| - 1], i, v);
    }
  }

  lemma VecSumZeros(n: nat)
    ensures VecSum(Zeros(n)) == Origin
  {
    if n > 0 {
      assert Zeros(n)[..n - 1] == Zeros(n - 1);
      VecSumZeros(n - 1);
    }
  }

  /** Equal and opposite: a push keeps the total force (also when `i == j`). */
  lemma PushBalanced(forces: seq<Vec3>, i: nat, j: nat, f: Vec3)
    requires i < |forces| && j < |forces|
    ensures VecSum(Push(forces, i, j, f)) == VecSum(forces)
  {
    var once := forces[i := Sub(forces[i], f)];
    VecSumUpdate(forces, i, Sub(forces[i], f));
    VecSumUpdate(once, j, Add(once[j], f));
  }

  /** Equal and opposite: a pull keeps the total force (also when `i == j`). */
  lemma PullBalanced(forces: seq<Vec3>, i: nat, j: nat, f: Vec3)
    requires i < |forces| && j < |forces|
    ensures VecSum(Pull(forces, i, j, f)) == VecSum(forces)
  {
    var once := forces[i := Add(forces[i], f)];
    VecSumUpdate(forces, i, Add(forces[i], f));
    VecSumUpdate(once, j, Sub(once[j], f));
  }

  lemma {:induction false} RepulseRowBalanced(force: PairForce, forces: seq<Vec3>, i: nat, jEnd: nat)
    requires i < |forces| && jEnd <= |forces|
    ensures VecSum(RepulseRow(force, forces, i, jEnd)) == VecSum(forces)
    decreases jEnd
  {
    if jEnd > i + 1 {
      var prev := RepulseRow(force, forces, i, jEnd - 1);
      RepulseRowBalanced(force, forces, i, jEnd - 1);
      match force(i, jEnd - 1) {
        case None =>
        case Some(f) => PushBalanced(prev, i, jEnd - 1, f);
      }
    }
  }

  lemma {:induction false} RepulseRowsBalanced(force: PairForce, forces: seq<Vec3>, iEnd: nat)
    requires iEnd <= |forces|
    ensures VecSum(RepulseRows(force, forces, iEnd)) == VecSum(forces)
  {
    if iEnd > 0 {
      RepulseRowsBalanced(force, forces, iEnd - 1);
      RepulseRowBalanced(force, RepulseRows(force, forces, iEnd - 1), iEnd - 1, |forces|);
    }
  }

  lemma {:induction false} AttractEdgesBalanced(p: SimulationParams, sqrt: SquareRoot, nodes: seq<Node>, forces: seq<Vec3>, edges: seq<Edge>)
    requires |forces| == |nodes|
    ensures VecSum(AttractEdges(p, sqrt, nodes, forces, edges)) == VecSum(forces)
    decreases |edges|
  {
    if |edges| > 0 {
      var prev := AttractEdges(p, sqrt, nodes, forces, edges[..|edges| - 1]);
      var e := edges[|edges| - 1];
      AttractEdgesBalanced(p, sqrt, nodes, forces, edges[..|edges| - 1]);
      match (IndexOfId(nodes, e.source), IndexOfId(nodes, e.target)) {
        case (Some(i), Some(j)) =>
          match SpringForce(p, sqrt, nodes[i].data, nodes[j].data, e.weight) {
            case None =>
            case Some(f) => PullBalanced(prev, i, j, f);
          }
        case _ =>
      }
    }
  }

  /**
   * Newton's third law for the whole step: every force is applied in equal
   * and opposite pairs, so the net forces of all nodes sum to zero.
   */
  lemma ForcesBalanced(p: SimulationParams, sqrt: SquareRoot, nodes: seq<Node>, edges: seq<Edge>)
    ensures VecSum(Forces(p, sqrt, nodes, edges)) == Origin
  {
    VecSumZeros(|nodes|);
    RepulseRowsBalanced(RepulsionOf(p, sqrt, nodes), Zeros(|nodes|), |nodes|);
    AttractEdgesBalanced(p, sqrt, nodes, RepulseRows(RepulsionOf(p, sqrt, nodes), Zeros(|nodes|), |nodes|), edges);
  }

  /** The edges whose two endpoints are both nodes of the graph, in order. */
  function Anchored(nodes: seq<Node>, edges: seq<Edge>): (r: seq<Edge>)
    ensures |r| <= |edges|
    ensures forall e :: e in r <==> e in edges && HasId(nodes, e.source) && HasId(nodes, e.target)
    decreases |edges|
  {
    if |edges| == 0 then []
    else
      var e := edges[|edges| - 1];
      var rest := Anchored(nodes, edges[..|edges| - 1]);
      assert forall x :: x in edges <==> x in edges[..|edges| - 1] || x == e;
      if HasId(nodes, e.source) && HasId(nodes, e.target) then rest + [e] else rest
  }

  /** Edges naming a node the graph lacks contribute nothing to the spring pass. */
  lemma {:induction false} DanglingEdgesIgnored(p: SimulationParams, sqrt: SquareRoot, nodes: seq<Node>, forces: seq<Vec3>, edges: seq<Edge>)
    requires |forces| == |nodes|
    ensures AttractEdges(p, sqrt, nodes, forces, edges) == AttractEdges(p, sqrt, nodes, forces, Anchored(nodes, edges))
    decreases |edges|
  {
    if |edges| > 0 {
      var e := edges[|edges| - 1];
      var rest := Anchored(nodes, edges[..|edges| - 1]);
      DanglingEdgesIgnored(p, sqrt, nodes, forces, edges[..|edges| - 1]);
      if HasId(nodes, e.source) && HasId(nodes, e.target) {
        assert (rest + [e])[..|rest + [e]| - 1] == rest;
      }
    }
  }

  /** A direction scaled by `factor / dist`, as both force formulas build it. */
  function Along(d: Vec3, dist: real, factor: real): Vec3
    requires dist != 0.0
  {
    Vec3(d.x / dist * factor, d.y / dist * factor, d.z / dist * factor)
  }

  // ---------------------------------------------------------------------------
  // The accelerator path and the retry loop

  /**
   * What the accelerator answers in one `calculate_layout` call, stage by
   * stage: uploading the graph, uploading the parameters, the step, and the
   * read-back of the node records.
   */
  datatype GpuAttempt = GpuAttempt(
    uploadGraph: Outcome<GpuError>,
    uploadParams: Outcome<GpuError>,
    step: Outcome<GpuError>,
    readBack: Result<seq<NodeData>, GpuError>)

  /** The error of the first stage that fails, if any; later stages are not reached. */
  function FirstFailure(a: GpuAttempt): (r: Option<GpuError>)
    ensures r.None? <==> a.uploadGraph.Pass? && a.uploadParams.Pass? && a.step.Pass? && a.readBack.Ok?
    ensures a.uploadGraph.Fail? ==> r == Some(a.uploadGraph.error)
  {
    if a.uploadGraph.Fail? then Some(a.uploadGraph.error)
    else if a.uploadParams.Fail? then Some(a.uploadParams.error)
    else if a.step.Fail? then Some(a.step.error)
    else if a.readBack.Err? then Some(a.readBack.error)
    else None
  }

  /**
   * The node sequence after the read-back: node `i` takes record `i` when the
   * accelerator returned one, and keeps its data otherwise; nothing else of a
   * node changes.
   */
  function WriteBack(nodes: seq<Node>, records: seq<NodeData>): (r: seq<Node>)
    ensures |r| == |nodes|
    ensures forall i :: 0 <= i < |nodes| ==> r[i] == nodes[i].(data := r[i].data)
    ensures forall i :: 0 <= i < |nodes| ==> r[i].data == if i < |records| then records[i] else nodes[i].data
  {
    seq(|nodes|, i requires 0 <= i < |nodes| => if i < |records| then nodes[i].(data := records[i]) else nodes[i])
  }

  function Min(a: nat, b: nat): nat { if a <= b then a else b }

  /**
   * `calculate_layout`: the stages run in order and the first failure is
   * returned with the graph and the map untouched; on success every node with
   * a read-back record takes it, in the sequence and in the map.
   */
  method CalculateLayout(gpu: GpuAttempt, graph: GraphData, nodeMap: map<nat, Node>)
    returns (r: Outcome<GpuError>, graph': GraphData, nodeMap': map<nat, Node>)
    ensures FirstFailure(gpu).Some? ==> r == Fail(FirstFailure(gpu).value) && graph' == graph && nodeMap' == nodeMap
    ensures FirstFailure(gpu).None? ==> r == Pass && graph' == graph.(nodes := WriteBack(graph.nodes, gpu.readBack.value))
    ensures FirstFailure(gpu).None? ==>
              nodeMap' == MirrorInto(nodeMap, graph'.nodes[..Min(|graph.nodes|, |gpu.readBack.value|)])
  {
    if gpu.uploadGraph.Fail? {
      return gpu.uploadGraph, graph, nodeMap;
    }
    if gpu.uploadParams.Fail? {
      return gpu.uploadParams, graph, nodeMap;
    }
    if gpu.step.Fail? {
      return gpu.step, graph, nodeMap;
    }
    var records;
    match gpu.readBack {
      case Err(e) => return Fail(e), graph, nodeMap;
      case Ok(v) => records := v;
    }
    var nodes;
    nodes, nodeMap' := ApplyRecords(graph.nodes, records, nodeMap);
    r, graph' := Pass, graph.(nodes := nodes);
  }

  /** The write-back loop of `calculate_layout`; nodes past the end of `records` are skipped. */
  method ApplyRecords(nodes: seq<Node>, records: seq<NodeData>, nodeMap: map<nat, Node>)
    returns (nodes': seq<Node>, nodeMap': map<nat, Node>)
    ensures nodes' == WriteBack(nodes, records)
    ensures nodeMap' == MirrorInto(nodeMap, nodes'[..Min(|nodes|, |records|)])
  {
    nodes' := nodes;
    nodeMap' := nodeMap;
    var i := 0;
    while i < |nodes|
      invariant 0 <= i <= |nodes| && |nodes'| == |nodes|
      invariant forall k :: 0 <= k < i ==> nodes'[k] == WriteBack(nodes, records)[k]
      invariant forall k :: i <= k < |nodes| ==> nodes'[k] == nodes[k]
      invariant nodeMap' == MirrorInto(nodeMap, nodes'[..Min(i, |records|)])
    {
      if i >= |records| {
        i := i + 1;
        continue;
      }
      ghost var before := nodes';
      nodes' := nodes'[i := nodes'[i].(data := records[i])];
      assert nodes'[..i + 1][..i] == before[..i];
      if nodes'[i].id in nodeMap' {
        nodeMap' := nodeMap'[nodes'[i].id := nodeMap'[nodes'[i].id].(data := records[i])];
      }
      i := i + 1;
    }
    assert nodes' == WriteBack(nodes, records);
  }

  /**
   * With unique ids, a successful read-back leaves every map entry of a node
   * with a record carrying exactly that record, and every other entry as it was.
   */
  lemma WriteBackMirrored(nodes: seq<Node>, records: seq<NodeData>, nodeMap: map<nat, Node>)
    requires UniqueIds(nodes)
    ensures var m := MirrorInto(nodeMap, WriteBack(nodes, records)[..Min(|nodes|, |records|)]);
            m.Keys == nodeMap.Keys &&
            (forall i :: 0 <= i < |nodes| && i < |records| && nodes[i].id in nodeMap ==>
               m[nodes[i].id] == nodeMap[nodes[i].id].(data := records[i])) &&
            (forall i :: 0 <= i < |nodes| && |records| <= i && nodes[i].id in nodeMap ==>
               m[nodes[i].id] == nodeMap[nodes[i].id]) &&
            (forall id :: id in nodeMap && !HasId(nodes, id) ==> m[id] == nodeMap[id])
  {
    var written := WriteBack(nodes, records)[..Min(|nodes|, |records|)];
    assert forall i :: 0 <= i < |written| ==> written[i].id == nodes[i].id;
    MirrorIntoSpec(nodeMap, written);
    forall id | id in nodeMap && !HasId(written, id)
      ensures MirrorInto(nodeMap, written)[id] == nodeMap[id]
    {
    }
    forall i | 0 <= i < |nodes| && |records| <= i && nodes[i].id in nodeMap
      ensures !HasId(written, nodes[i].id)
    {
    }
    forall id | id in nodeMap && !HasId(nodes, id)
      ensures !HasId(written, id)
    {
    }
  }

  const MaxGpuCalculationRetries: nat := 3
  const GpuRetryDelayMs: nat := 500

  function Pow2(k: nat): (r: nat)
    ensures r >= 1
  {
    if k == 0 then 1 else 2 * Pow2(k - 1)
  }

  /** The back-off before retry `k + 1` after attempt `k` failed. */
  function RetryDelay(k: nat): nat { GpuRetryDelayMs * Pow2(k) }

  /** The graph and map after a successful accelerator call answering `a`. */
  predicate GpuApplied(a: GpuAttempt, graph: GraphData, nodeMap: map<nat, Node>, graph': GraphData, nodeMap': map<nat, Node>)
    requires FirstFailure(a).None?
  {
    graph' == graph.(nodes := WriteBack(graph.nodes, a.readBack.value)) &&
    nodeMap' == MirrorInto(nodeMap, graph'.nodes[..Min(|graph.nodes|, |a.readBack.value|)])
  }

  /**
   * The graph and map a retried layout leaves, from attempt `k` on: the first
   * accelerator attempt that succeeds is applied; once all three have failed,
   * the CPU step is.
   */
  predicate RetryFrom(k: nat, gpu: nat -> GpuAttempt, graph: GraphData, nodeMap: map<nat, Node>,
                      p: SimulationParams, sqrt: SquareRoot, graph': GraphData, nodeMap': map<nat, Node>)
    decreases MaxGpuCalculationRetries - k
  {
    if k >= MaxGpuCalculationRetries then
      graph' == graph.(nodes := CpuStep(p, sqrt, graph.nodes, graph.edges)) &&
      nodeMap' == MirrorInto(nodeMap, graph'.nodes)
    else if FirstFailure(gpu(k)).None? then GpuApplied(gpu(k), graph, nodeMap, graph', nodeMap')
    else RetryFrom(k + 1, gpu, graph, nodeMap, p, sqrt, graph', nodeMap')
  }

  /** The attempt-by-attempt outcome of the retry loop is the retried layout from attempt `k` on. */
  lemma {:induction false} RetryFromAttempts(k: nat, attempts: nat, usedCpu: bool, gpu: nat -> GpuAttempt,
                                             graph: GraphData, nodeMap: map<nat, Node>, p: SimulationParams,
                                             sqrt: SquareRoot, graph': GraphData, nodeMap': map<nat, Node>)
    requires k < attempts <= MaxGpuCalculationRetries
    requires forall j :: 0 <= j < attempts - 1 ==> FirstFailure(gpu(j)).Some?
    requires usedCpu <==> attempts == MaxGpuCalculationRetries && FirstFailure(gpu(attempts - 1)).Some?
    requires !usedCpu ==> FirstFailure(gpu(attempts - 1)).None? && GpuApplied(gpu(attempts - 1), graph, nodeMap, graph', nodeMap')
    requires usedCpu ==>
               graph' == graph.(nodes := CpuStep(p, sqrt, graph.nodes, graph.edges)) &&
               nodeMap' == MirrorInto(nodeMap, graph'.nodes)
    ensures RetryFrom(k, gpu, graph, nodeMap, p, sqrt, graph', nodeMap')
    decreases attempts - k
  {
    if k < attempts - 1 {
      RetryFromAttempts(k + 1, attempts, usedCpu, gpu, graph, nodeMap, p, sqrt, graph', nodeMap');
    } else if usedCpu {
      assert RetryFrom(k + 1, gpu, graph, nodeMap, p, sqrt, graph', nodeMap');
    }
  }

  /**
   * `calculate_layout_with_retry`: up to three accelerator attempts (attempt
   * `k` answers `gpu(k)`), sleeping 500 ms then 1000 ms between them, and the
   * CPU step once all three have failed. The sleeps are returned as `delays`.
   * Since the CPU step cannot fail, neither can the whole call.
   */
  method CalculateLayoutWithRetry(gpu: nat -> GpuAttempt, graph: GraphData, nodeMap: map<nat, Node>,
                                  p: SimulationParams, sqrt: SquareRoot)
    returns (r: Outcome<GpuError>, graph': GraphData, nodeMap': map<nat, Node>,
             delays: seq<nat>, attempts: nat, usedCpu: bool)
    ensures r == Pass
    ensures 1 <= attempts <= MaxGpuCalculationRetries
    ensures forall k :: 0 <= k < attempts - 1 ==> FirstFailure(gpu(k)).Some?
    ensures usedCpu <==> attempts == MaxGpuCalculationRetries && FirstFailure(gpu(attempts - 1)).Some?
    ensures |delays| == if usedCpu then MaxGpuCalculationRetries - 1 else attempts - 1
    ensures forall k :: 0 <= k < |delays| ==> delays[k] == RetryDelay(k)
    ensures usedCpu ==> delays == [500, 1000]
    ensures !usedCpu ==> FirstFailure(gpu(attempts - 1)).None? && GpuApplied(gpu(attempts - 1), graph, nodeMap, graph', nodeMap')
    ensures usedCpu ==>
              graph' == graph.(nodes := CpuStep(p, sqrt, graph.nodes, graph.edges)) &&
              nodeMap' == MirrorInto(nodeMap, graph'.nodes)
    ensures RetryFrom(0, gpu, graph, nodeMap, p, sqrt, graph', nodeMap')
  {
    var succeeded, lastError;
    succeeded, graph', nodeMap', delays, attempts, lastError := GpuWithRetries(gpu, graph, nodeMap);
    if succeeded {
      RetryFromAttempts(0, attempts, false, gpu, graph, nodeMap, p, sqrt, graph', nodeMap');
      return Pass, graph', nodeMap', delays, attempts, false;
    }
    var cpu;
    cpu, graph', nodeMap' := CalculateLayoutCpu(graph, nodeMap, p, sqrt);
    usedCpu := true;
    match cpu {
      case Pass => r := Pass;
      case Fail(_) =>
        r := match lastError
             case Some(e) => Fail(e)
             case None => Fail(GpuError("All 3 GPU retry attempts failed and CPU fallback failed"));
    }
    RetryFromAttempts(0, attempts, true, gpu, graph, nodeMap, p, sqrt, graph', nodeMap');
  }

  /** The accelerator part of the retry loop: stops at the first success, after at most three attempts. */
  method GpuWithRetries(gpu: nat -> GpuAttempt, graph: GraphData, nodeMap: map<nat, Node>)
    returns (succeeded: bool, graph': GraphData, nodeMap': map<nat, Node>,
             delays: seq<nat>, attempts: nat, lastError: Option<GpuError>)
    ensures 1 <= attempts <= MaxGpuCalculationRetries
    ensures forall k :: 0 <= k < attempts - 1 ==> FirstFailure(gpu(k)).Some?
    ensures succeeded <==> FirstFailure(gpu(attempts - 1)).None?
    ensures !succeeded ==> attempts == MaxGpuCalculationRetries && lastError == FirstFailure(gpu(attempts - 1))
    ensures |delays| == if succeeded then attempts - 1 else MaxGpuCalculationRetries - 1
    ensures forall k :: 0 <= k < |delays| ==> delays[k] == RetryDelay(k)
    ensures succeeded ==> GpuApplied(gpu(attempts - 1), graph, nodeMap, graph', nodeMap')
  {
    lastError := None;
    delays := [];
    var attempt := 0;
    while attempt < MaxGpuCalculationRetries
      invariant 0 <= attempt <= MaxGpuCalculationRetries
      invariant forall k :: 0 <= k < attempt ==> FirstFailure(gpu(k)).Some?
      invariant attempt > 0 ==> lastError == FirstFailure(gpu(attempt - 1))
      invariant |delays| == if attempt == MaxGpuCalculationRetries then attempt - 1 else attempt
      invariant forall k :: 0 <= k < |delays| ==> delays[k] == RetryDelay(k)
    {
      var res, g, m := CalculateLayout(gpu(attempt), graph, nodeMap);
      match res {
        case Pass =>
          return true, g, m, delays, attempt + 1, lastError;
        case Fail(e) =>
          var delay := GpuRetryDelayMs * Pow2(attempt);
          lastError := Some(e);
          if attempt + 1 < MaxGpuCalculationRetries {
            delays := delays + [delay];
          }
      }
      attempt := attempt + 1;
    }
    return false, graph, nodeMap, delays, attempt, lastError;
  }
}
