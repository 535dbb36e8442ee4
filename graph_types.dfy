/**
 * The data model of the graph service: nodes, edges, the metadata store
 * entries a graph is built from, and the graph itself, plus the two ways the
 * service keeps its id-indexed node map and its node sequence in step.
 *
 * Floats (f32 positions, velocities, weights) are modelled as `real`;
 * integer fields as `nat`.
 */
module GraphTypes {
  import opened Wrappers

  datatype Vec3 = Vec3(x: real, y: real, z: real)

  const Origin: Vec3 := Vec3(0.0, 0.0, 0.0)

  function Add(a: Vec3, b: Vec3): Vec3 { Vec3(a.x + b.x, a.y + b.y, a.z + b.z) }
  function Sub(a: Vec3, b: Vec3): Vec3 { Vec3(a.x - b.x, a.y - b.y, a.z - b.z) }
  function Scale(a: Vec3, k: real): Vec3 { Vec3(a.x * k, a.y * k, a.z * k) }

  /** The fixed-size per-node record exchanged with the accelerator and the clients. */
  datatype NodeData = NodeData(position: Vec3, velocity: Vec3, mass: nat, flags: nat)

  /** A graph node: numeric id, metadata key (file name without `.md`), label (`nodeLabel`) and free-form metadata. */
  datatype Node = Node(
    id: nat,
    metadataId: string,
    nodeLabel: string,
    data: NodeData,
    metadata: map<string, string>,
    fileSize: nat)

  /** An undirected edge; the builder stores it with `source < target`. Weights are sums of counts. */
  datatype Edge = Edge(source: nat, target: nat, weight: nat)

  /**
   * One metadata-store record. Timestamps and the f64 node size are carried in
   * their rendered text form; `topicCounts` maps a target file to a co-occurrence count.
   */
  datatype Metadata = Metadata(
    fileName: string,
    fileSize: nat,
    nodeSize: string,
    hyperlinkCount: nat,
    sha1: string,
    nodeId: string,
    lastModified: string,
    perplexityLink: string,
    lastPerplexityProcess: Option<string>,
    topicCounts: map<string, nat>)

  /** The whole graph: ordered nodes, edges, the metadata store and the id to metadata-key lookup. */
  datatype GraphData = GraphData(
    nodes: seq<Node>,
    edges: seq<Edge>,
    metadata: map<string, Metadata>,
    idToMetadata: map<nat, string>)

  /** `GraphData::new()` / `GraphData::default()`. */
  const EmptyGraph: GraphData := GraphData([], [], map[], map[])

  /** The graph invariant that node ids are unique. */
  predicate UniqueIds(nodes: seq<Node>) {
    forall i, j :: 0 <= i < j < |nodes| ==> nodes[i].id != nodes[j].id
  }

  predicate HasId(nodes: seq<Node>, id: nat) {
    exists i :: 0 <= i < |nodes| && nodes[i].id == id
  }

  /** `nodes.iter().position(|n| n.id == id)`: the first index holding `id`. */
  function IndexOfId(nodes: seq<Node>, id: nat): (r: Option<nat>)
    ensures r.Some? ==> r.value < |nodes| && nodes[r.value].id == id
    ensures r.Some? ==> forall k :: 0 <= k < r.value ==> nodes[k].id != id
    ensures r.None? <==> !HasId(nodes, id)
  {
    if |nodes| == 0 then None
    else if nodes[0].id == id then Some(0)
    else
      var rest := IndexOfId(nodes[1..], id);
      assert forall k :: 1 <= k < |nodes| ==> nodes[k] == nodes[1..][k - 1];
      if rest.Some? then Some(rest.value + 1) else None
  }

  /** One step of mirroring: the map entry with the node's id, if any, takes the node's data. */
  function MirrorOne(m: map<nat, Node>, n: Node): map<nat, Node> {
    if n.id in m then m[n.id := m[n.id].(data := n.data)] else m
  }

  /** Mirror every node's data into the id-indexed map, in sequence order. */
  function MirrorInto(m: map<nat, Node>, nodes: seq<Node>): map<nat, Node>
    decreases |nodes|
  {
    if |nodes| == 0 then m
    else MirrorOne(MirrorInto(m, nodes[..|nodes| - 1]), nodes[|nodes| - 1])
  }

  /**
   * Mirroring keeps the map's keys; with unique ids every mirrored node's entry
   * carries exactly that node's data (all else kept), and entries no node names
   * are untouched.
   */
  lemma {:induction false} MirrorIntoSpec(m: map<nat, Node>, nodes: seq<Node>)
    requires UniqueIds(nodes)
    ensures MirrorInto(m, nodes).Keys == m.Keys
    ensures forall i :: 0 <= i < |nodes| && nodes[i].id in m ==>
              MirrorInto(m, nodes)[nodes[i].id] == m[nodes[i].id].(data := nodes[i].data)
    ensures forall id :: id in m && !HasId(nodes, id) ==> MirrorInto(m, nodes)[id] == m[id]
    decreases |nodes|
  {
    if |nodes| > 0 {
      var pre := nodes[..|nodes| - 1];
      var last := nodes[|nodes| - 1];
      assert UniqueIds(pre);
      MirrorIntoSpec(m, pre);
      forall i | 0 <= i < |nodes| && nodes[i].id in m
        ensures MirrorInto(m, nodes)[nodes[i].id] == m[nodes[i].id].(data := nodes[i].data)
      {
        if i < |nodes| - 1 {
          assert pre[i] == nodes[i];
          assert nodes[i].id != last.id;
        }
      }
    }
  }

  /** The broadcast projection: each node becomes its `(id, data)` record, in order. */
  function Project(nodes: seq<Node>): (r: seq<(nat, NodeData)>)
    ensures |r| == |nodes|
    ensures forall i :: 0 <= i < |nodes| ==> r[i].0 == nodes[i].id && r[i].1 == nodes[i].data
  {
    seq(|nodes|, i requires 0 <= i < |nodes| => (nodes[i].id, nodes[i].data))
  }
}
