/**
 * Building a graph from the metadata store (`build_graph_from_metadata`):
 * one node per distinct metadata key with its `.md` suffixes trimmed, and one
 * canonical edge per resolvable pair of distinct nodes, weighted by the sum of
 * the topic co-occurrence counts that name that pair in either direction;
 * then every node is put at its initial position, given by the caller.
 *
 * HashSet and HashMap iteration orders are unspecified; the loops below pick
 * an arbitrary remaining element (`:|`), so every property holds for every order.
 */
module GraphBuilder {
  import opened Wrappers
  import opened GraphTypes

  // ---------------------------------------------------------------------------
  // Text helpers: suffix trimming, decimal rendering and `u32` parsing
  // ---------------------------------------------------------------------------

  predicate EndsWithMd(s: string) {
    |s| >= 3 && s[|s| - 3..] == ".md"
  }

  /** `trim_end_matches(".md")`: removes the suffix as many times as it repeats. */
  function TrimMd(s: string): (r: string)
    ensures !EndsWithMd(r)
    ensures |r| <= |s| && r == s[..|r|]
    decreases |s|
  {
    if EndsWithMd(s) then TrimMd(s[..|s| - 3]) else s
  }

  /** Trimming undoes any number of appended `.md` suffixes, and only those. */
  lemma {:induction false} TrimMdAppended(s: string, k: nat)
    requires !EndsWithMd(s)
    ensures TrimMd(s + RepeatMd(k)) == s
    decreases k
  {
    if k > 0 {
      var t := s + RepeatMd(k);
      assert t == (s + RepeatMd(k - 1)) + ".md";
      assert EndsWithMd(t);
      assert t[..|t| - 3] == s + RepeatMd(k - 1);
      TrimMdAppended(s, k - 1);
    } else {
      assert s + RepeatMd(0) == s;
    }
  }

  function RepeatMd(k: nat): (r: string)
    ensures |r| == 3 * k
  {
    if k == 0 then "" else RepeatMd(k - 1) + ".md"
  }

  function DigitChar(d: nat): char
    requires d < 10
  {
    "0123456789"[d]
  }

  predicate IsDigit(c: char) { '0' <= c <= '9' }

  /** Decimal rendering of an unsigned integer (`to_string`). */
  function NatText(n: nat): (r: string)
    ensures |r| > 0 && forall i :: 0 <= i < |r| ==> IsDigit(r[i])
    decreases n
  {
    if n < 10 then [DigitChar(n)] else NatText(n / 10) + [DigitChar(n % 10)]
  }

  function DigitValue(c: char): nat
    requires IsDigit(c)
  {
    (c as int - '0' as int) as nat
  }

  function DigitsValue(s: string): nat
    requires forall i :: 0 <= i < |s| ==> IsDigit(s[i])
    decreases |s|
  {
    if |s| == 0 then 0 else 10 * DigitsValue(s[..|s| - 1]) + DigitValue(s[|s| - 1])
  }

  const U32Max: nat := 0xFFFF_FFFF

  /** `str::parse::<u32>()`: an optional `+`, then one or more digits, within range. */
  function ParseU32(s: string): (r: Option<nat>)
    ensures r.Some? ==> r.value <= U32Max
  {
    var digits := if |s| > 0 && s[0] == '+' then s[1..] else s;
    if |digits| == 0 || !(forall i :: 0 <= i < |digits| ==> IsDigit(digits[i])) then None
    else if DigitsValue(digits) <= U32Max then Some(DigitsValue(digits))
    else None
  }

  lemma {:induction false} DigitsValueOfNatText(n: nat)
    ensures DigitsValue(NatText(n)) == n
    decreases n
  {
    if n >= 10 {
      var t := NatText(n);
      assert t[..|t| - 1] == NatText(n / 10);
      DigitsValueOfNatText(n / 10);
    }
  }

  /** A rendered id parses back to itself: `NatText` and `ParseU32` are inverse on `u32`. */
  lemma ParseU32OfNatText(n: nat)
    requires n <= U32Max
    ensures ParseU32(NatText(n)) == Some(n)
  {
    DigitsValueOfNatText(n);
  }

  // ---------------------------------------------------------------------------
  // Nodes
  // ---------------------------------------------------------------------------

  /** The candidate node ids: every metadata key with `.md` trimmed (the `valid_nodes` set). */
  function TrimmedKeys(md: map<string, Metadata>): set<string> {
    set k | k in md :: TrimMd(k)
  }

  /**
   * The defaults `Node::new_with_id` gives a node (that constructor is not part
   * of this model): label = metadata id, zero data, no metadata.
   */
  function NewNode(metadataId: string, id: nat): Node {
    Node(id, metadataId, metadataId, NodeData(Origin, Origin, 0, 0), map[], 0)
  }

  /** The id allocator behind `Node::new_with_id`: a stored id is used, otherwise the counter's next value. */
  function AllocateId(stored: Option<nat>, next: nat): (r: (nat, nat))
    ensures stored.None? ==> r == (next, next + 1)
    ensures stored.Some? ==> r == (stored.value, next)
  {
    match stored
    case Some(v) => (v, next)
    case None => (next, next + 1)
  }

  /** The stored-id lookup: the store's entry for `key`, its `node_id` parsed as `u32`. */
  function StoredNodeId(store: map<string, Metadata>, key: string): (r: Option<nat>)
    ensures key !in store ==> r.None?
  {
    if key in store then ParseU32(store[key].nodeId) else None
  }

  /** `name` / `metadataId`: the file name with ONE `.md` removed when it ends so. */
  function DisplayName(fileName: string): string {
    if EndsWithMd(fileName) then fileName[..|fileName| - 3] else fileName
  }

  /** The descriptive fields a node copies from its metadata record. */
  function DescriptiveFields(m: Metadata): (r: map<string, string>)
    ensures "fileName" in r && r["fileName"] == m.fileName
    ensures "sha1" in r && r["sha1"] == m.sha1
    ensures "fileSize" in r && r["fileSize"] == NatText(m.fileSize)
    ensures "hyperlinkCount" in r && r["hyperlinkCount"] == NatText(m.hyperlinkCount)
    ensures "nodeSize" in r && r["nodeSize"] == m.nodeSize
    ensures "lastModified" in r && r["lastModified"] == m.lastModified
    ensures "name" in r && "metadataId" in r && r["name"] == r["metadataId"]
    ensures EndsWithMd(m.fileName) ==> r["name"] + ".md" == m.fileName
    ensures !EndsWithMd(m.fileName) ==> r["name"] == m.fileName
    ensures "perplexityLink" in r <==> m.perplexityLink != ""
    ensures "lastPerplexityProcess" in r <==> m.lastPerplexityProcess.Some?
  {
    var base := map[
      "fileName" := m.fileName,
      "name" := DisplayName(m.fileName),
      "metadataId" := DisplayName(m.fileName),
      "fileSize" := NatText(m.fileSize),
      "nodeSize" := m.nodeSize,
      "hyperlinkCount" := NatText(m.hyperlinkCount),
      "sha1" := m.sha1,
      "lastModified" := m.lastModified];
    var withLink := if m.perplexityLink != "" then base["perplexityLink" := m.perplexityLink] else base;
    match m.lastPerplexityProcess
    case Some(t) => withLink["lastPerplexityProcess" := t]
    case None => withLink
  }

  /** The descriptive fields are the eight fixed keys plus the two optional ones when present, and no other. */
  lemma DescriptiveFieldKeys(m: Metadata)
    ensures DescriptiveFields(m).Keys ==
            FixedFieldKeys +
            (if m.perplexityLink != "" then {"perplexityLink"} else {}) +
            (if m.lastPerplexityProcess.Some? then {"lastPerplexityProcess"} else {})
  {
  }

  const FixedFieldKeys: set<string> :=
    {"fileName", "name", "metadataId", "fileSize", "nodeSize", "hyperlinkCount", "sha1", "lastModified"}

  /** Filling a fresh node from its metadata record: size, mass, flag 1, trimmed label, descriptive fields. */
  function Describe(n: Node, m: Metadata, massOf: nat -> nat): Node {
    n.(fileSize := m.fileSize,
       data := n.data.(mass := massOf(m.fileSize), flags := 1),
       nodeLabel := TrimMd(m.fileName),
       metadata := n.metadata + DescriptiveFields(m))
  }

  /**
   * The node built for candidate `mid` with numeric id `id`. A candidate with
   * a record `mid.md` is flagged 1 and takes its size, mass, trimmed label and
   * descriptive fields from it; one without stays a default node.
   */
  function MakeNode(md: map<string, Metadata>, mid: string, id: nat, massOf: nat -> nat): (n: Node)
    ensures n.id == id && n.metadataId == mid
    ensures n.data.flags == 1 <==> mid + ".md" in md
    ensures n.data.position == Origin && n.data.velocity == Origin
    ensures mid + ".md" !in md ==> n == NewNode(mid, id)
    ensures mid + ".md" in md ==>
              var m := md[mid + ".md"];
              && n.nodeLabel == TrimMd(m.fileName)
              && n.fileSize == m.fileSize
              && n.data.mass == massOf(m.fileSize)
              && n.metadata == DescriptiveFields(m)
  {
    var n := NewNode(mid, id);
    if mid + ".md" in md then Describe(n, md[mid + ".md"], massOf) else n
  }

  /** The nodes built for the candidates in `order`, numbered from `firstId`. */
  function MakeNodes(md: map<string, Metadata>, order: seq<string>, firstId: nat, massOf: nat -> nat): (r: seq<Node>)
    ensures |r| == |order|
    decreases |order|
  {
    if |order| == 0 then []
    else MakeNodes(md, order[..|order| - 1], firstId, massOf) + [MakeNode(md, order[|order| - 1], firstId + |order| - 1, massOf)]
  }

  /** The id to metadata-key lookup for the candidates in `order`, numbered from `firstId`. */
  function IdIndex(order: seq<string>, firstId: nat): map<nat, string>
    decreases |order|
  {
    if |order| == 0 then map[]
    else IdIndex(order[..|order| - 1], firstId)[firstId + |order| - 1 := order[|order| - 1]]
  }

  /** The lookup maps exactly `firstId .. firstId + |order| - 1`, each to its candidate. */
  lemma {:induction false} IdIndexAt(order: seq<string>, firstId: nat)
    ensures forall id :: id in IdIndex(order, firstId) <==> firstId <= id < firstId + |order|
    ensures forall i :: 0 <= i < |order| ==> IdIndex(order, firstId)[firstId + i] == order[i]
    decreases |order|
  {
    if |order| > 0 {
      var pre := order[..|order| - 1];
      IdIndexAt(pre, firstId);
      assert forall i :: 0 <= i < |pre| ==> pre[i] == order[i];
    }
  }

  /** The `i`-th built node is the node for the `i`-th candidate with id `firstId + i`. */
  lemma {:induction false} MakeNodesAt(md: map<string, Metadata>, order: seq<string>, firstId: nat, massOf: nat -> nat)
    ensures forall i :: 0 <= i < |order| ==> MakeNodes(md, order, firstId, massOf)[i] == MakeNode(md, order[i], firstId + i, massOf)
    decreases |order|
  {
    if |order| > 0 {
      var pre := order[..|order| - 1];
      MakeNodesAt(md, pre, firstId, massOf);
      assert forall i :: 0 <= i < |pre| ==> pre[i] == order[i];
    }
  }

  /** The first pass: the set of trimmed keys, gathered one key at a time. */
  method CollectTrimmedKeys(md: map<string, Metadata>) returns (valid: set<string>)
    ensures valid == TrimmedKeys(md)
  {
    valid := {};
    var keys := md.Keys;
    while keys != {}
      invariant keys <= md.Keys
      invariant forall k :: k in md && k !in keys ==> TrimMd(k) in valid
      invariant forall v :: v in valid ==> exists k :: k in md && k !in keys && TrimMd(k) == v
      decreases keys
    {
      var k :| k in keys;
      valid := valid + {TrimMd(k)};
      keys := keys - {k};
    }
  }

  /**
   * The node pass. Builds one node per trimmed key; the stored-id lookup reads
   * the graph's own metadata map, which is still empty at this point, so every
   * id comes from the allocator: the nodes get `firstId, firstId + 1, ...`.
   */
  method BuildNodes(md: map<string, Metadata>, massOf: nat -> nat, firstId: nat)
    returns (nodes: seq<Node>, idToMetadata: map<nat, string>, nextId: nat)
    ensures NodesOf(md, massOf, firstId, nodes) && nextId == firstId + |nodes|
    ensures forall i, j :: 0 <= i < j < |nodes| ==> nodes[i].metadataId != nodes[j].metadataId
    ensures forall id :: id in idToMetadata <==> firstId <= id < nextId
    ensures forall i :: 0 <= i < |nodes| ==> idToMetadata[firstId + i] == nodes[i].metadataId
  {
    var valid := CollectTrimmedKeys(md);
    ghost var order;
    nodes, idToMetadata, nextId, order := NumberCandidates(md, massOf, firstId, valid);
    BuiltInOrder(md, massOf, firstId, order, valid, nodes);
  }

  /**
   * The second pass: one node per candidate, in the set's (arbitrary) order,
   * recorded in the ghost `order`.
   */
  method NumberCandidates(md: map<string, Metadata>, massOf: nat -> nat, firstId: nat, valid: set<string>)
    returns (nodes: seq<Node>, idToMetadata: map<nat, string>, nextId: nat, ghost order: seq<string>)
    ensures nodes == MakeNodes(md, order, firstId, massOf)
    ensures idToMetadata == IdIndex(order, firstId) && nextId == firstId + |order|
    ensures |order| == |valid|
    ensures forall k :: k in valid ==> k in order
    ensures forall i :: 0 <= i < |order| ==> order[i] in valid
    ensures forall i, j :: 0 <= i < j < |order| ==> order[i] != order[j]
  {
    var graphMetadata: map<string, Metadata> := map[];
    var remaining := valid;
    order := [];
    nodes, idToMetadata, nextId := [], map[], firstId;
    while remaining != {}
      invariant remaining <= valid
      invariant |order| + |remaining| == |valid| && nextId == firstId + |order|
      invariant nodes == MakeNodes(md, order, firstId, massOf)
      invariant forall i :: 0 <= i < |order| ==> order[i] in valid && order[i] !in remaining
      invariant forall k :: k in valid && k !in remaining ==> k in order
      invariant forall i, j :: 0 <= i < j < |order| ==> order[i] != order[j]
      invariant idToMetadata == IdIndex(order, firstId)
      decreases remaining
    {
      var mid :| mid in remaining;
      ghost var prev := order;
      nodes, idToMetadata, nextId, order := NumberOne(md, massOf, firstId, graphMetadata, mid, nodes, idToMetadata, nextId, order);
      assert forall i :: 0 <= i < |prev| ==> order[i] == prev[i];
      remaining := remaining - {mid};
    }
  }

  /** One candidate: the id from the allocator (the store is empty), the node, and its lookup entry. */
  method NumberOne(md: map<string, Metadata>, massOf: nat -> nat, firstId: nat, graphMetadata: map<string, Metadata>,
                   mid: string, nodes: seq<Node>, idToMetadata: map<nat, string>, nextId: nat, ghost order: seq<string>)
    returns (nodes': seq<Node>, idToMetadata': map<nat, string>, nextId': nat, ghost order': seq<string>)
    requires graphMetadata == map[] && nextId == firstId + |order|
    requires nodes == MakeNodes(md, order, firstId, massOf) && idToMetadata == IdIndex(order, firstId)
    ensures order' == order + [mid] && nextId' == nextId + 1
    ensures nodes' == MakeNodes(md, order', firstId, massOf) && idToMetadata' == IdIndex(order', firstId)
  {
    var slot := AllocateId(StoredNodeId(graphMetadata, mid + ".md"), nextId);
    // `new_with_id`, then the record's fields when `mid.md` has one
    var node := MakeNode(md, mid, slot.0, massOf);
    idToMetadata' := idToMetadata[node.id := mid];
    nodes' := nodes + [node];
    order' := order + [mid];
    assert order'[..|order'| - 1] == order;
    nextId' := slot.1;
  }

  /** Numbering the distinct candidates of `order` gives the nodes and lookup `BuildNodes` promises. */
  lemma BuiltInOrder(md: map<string, Metadata>, massOf: nat -> nat, firstId: nat, order: seq<string>, valid: set<string>, nodes: seq<Node>)
    requires nodes == MakeNodes(md, order, firstId, massOf)
    requires forall k :: k in valid ==> k in order
    requires forall i :: 0 <= i < |order| ==> order[i] in valid
    ensures && (forall k :: k in valid <==> exists i :: 0 <= i < |nodes| && nodes[i].metadataId == k)
            && (forall i :: 0 <= i < |nodes| ==> nodes[i] == MakeNode(md, nodes[i].metadataId, firstId + i, massOf))
            && (forall i :: 0 <= i < |nodes| ==> nodes[i].metadataId == order[i])
            && (forall id :: id in IdIndex(order, firstId) <==> firstId <= id < firstId + |order|)
            && (forall i :: 0 <= i < |nodes| ==> IdIndex(order, firstId)[firstId + i] == nodes[i].metadataId)
  {
    MakeNodesAt(md, order, firstId, massOf);
    IdIndexAt(order, firstId);
    assert forall i :: 0 <= i < |nodes| ==> nodes[i].metadataId == order[i];
    forall k ensures k in valid <==> exists i :: 0 <= i < |nodes| && nodes[i].metadataId == k {
      if k in valid {
        var i :| 0 <= i < |order| && order[i] == k;
        assert nodes[i].metadataId == k;
      } else {
        forall i | 0 <= i < |nodes| ensures nodes[i].metadataId != k {
          assert order[i] in valid;
        }
      }
    }
  }

  // ---------------------------------------------------------------------------
  // Edges
  // ---------------------------------------------------------------------------

  /** A (source file, target file) entry of some record's topic counts. */
  type Contribution = (string, string)

  /** The topic-count entries of the records keyed by `srcs`. */
  function ContributionsOf(md: map<string, Metadata>, srcs: set<string>): set<Contribution> {
    set s, t | s in srcs && s in md && t in md[s].topicCounts :: (s, t)
  }

  function Contributions(md: map<string, Metadata>): set<Contribution> {
    ContributionsOf(md, md.Keys)
  }

  function Pairs(s: string, ts: set<string>): set<Contribution> {
    set t | t in ts :: (s, t)
  }

  lemma PairsAdd(s: string, ts: set<string>, t: string)
    ensures Pairs(s, ts + {t}) == Pairs(s, ts) + {(s, t)}
  {
  }

  /** The contributions of one record. */
  function Batch(md: map<string, Metadata>, s: string): set<Contribution>
    requires s in md
  {
    Pairs(s, md[s].topicCounts.Keys)
  }

  lemma ContributionsOfAdd(md: map<string, Metadata>, srcs: set<string>, s: string)
    requires s in md && s !in srcs
    ensures ContributionsOf(md, srcs + {s}) == ContributionsOf(md, srcs) + Batch(md, s)
    ensures ContributionsOf(md, srcs) !! Batch(md, s)
  {
  }

  function Count(md: map<string, Metadata>, c: Contribution): nat {
    if c.0 in md && c.1 in md[c.0].topicCounts then md[c.0].topicCounts[c.1] else 0
  }

  /** `graph.nodes.iter().find(|n| n.metadata_id == mid)`, giving the node's numeric id. */
  function FindNodeId(nodes: seq<Node>, mid: string): (r: Option<nat>)
    ensures r.Some? ==> HasId(nodes, r.value)
    ensures r.None? <==> forall i :: 0 <= i < |nodes| ==> nodes[i].metadataId != mid
    ensures r.Some? ==> exists i :: 0 <= i < |nodes| && nodes[i].metadataId == mid && nodes[i].id == r.value
  {
    if |nodes| == 0 then None
    else if nodes[0].metadataId == mid then Some(nodes[0].id)
    else
      var rest := FindNodeId(nodes[1..], mid);
      assert forall k :: 1 <= k < |nodes| ==> nodes[k] == nodes[1..][k - 1];
      rest
  }

  /** The ordered pair of two distinct resolved ids, smaller first. */
  function Canonical(src: Option<nat>, tgt: Option<nat>): (r: Option<(nat, nat)>)
    ensures r.Some? <==> src.Some? && tgt.Some? && src.value != tgt.value
    ensures r.Some? ==> r.value.0 < r.value.1 && {r.value.0, r.value.1} == {src.value, tgt.value}
  {
    if src.None? || tgt.None? || src.value == tgt.value then None
    else if src.value < tgt.value then Some((src.value, tgt.value))
    else Some((tgt.value, src.value))
  }

  /** The canonical pair a contribution adds to, if both ends resolve to distinct nodes. */
  function Resolve(md: map<string, Metadata>, nodes: seq<Node>, c: Contribution): (r: Option<(nat, nat)>)
    ensures r.Some? ==> r.value.0 < r.value.1
  {
    Canonical(FindNodeId(nodes, TrimMd(c.0)), FindNodeId(nodes, TrimMd(c.1)))
  }

  /** Both ends of a resolved pair are ids of existing nodes. */
  lemma ResolveEndpoints(md: map<string, Metadata>, nodes: seq<Node>, c: Contribution)
    requires Resolve(md, nodes, c).Some?
    ensures HasId(nodes, Resolve(md, nodes, c).value.0) && HasId(nodes, Resolve(md, nodes, c).value.1)
  {
  }

  // The aggregation is reasoned about for any resolution and any count per
  // contribution; the builder instantiates them with `Resolve` and `Count`.

  type Resolver = Contribution -> Option<(nat, nat)>
  type Counter = Contribution -> nat

  function ResolverOf(md: map<string, Metadata>, nodes: seq<Node>): Resolver {
    c => Resolve(md, nodes, c)
  }

  function CounterOf(md: map<string, Metadata>): Counter {
    c => Count(md, c)
  }

  function Share(res: Resolver, cnt: Counter, c: Contribution, p: (nat, nat)): nat {
    if res(c) == Some(p) then cnt(c) else 0
  }

  /** The weight of pair `p`: the sum of the counts of all contributions in `cs` that resolve to `p`. */
  ghost function PairWeight(res: Resolver, cnt: Counter, cs: set<Contribution>, p: (nat, nat)): nat
    decreases cs
  {
    if cs == {} then 0
    else
      var c :| c in cs;
      Share(res, cnt, c, p) + PairWeight(res, cnt, cs - {c}, p)
  }

  /** The pairs some contribution of `cs` resolves to. */
  ghost function ResolvedPairs(res: Resolver, cs: set<Contribution>): set<(nat, nat)> {
    set c | c in cs && res(c).Some? :: res(c).value
  }

  /** The sum does not depend on which element the definition picks first. */
  lemma {:induction false} PairWeightRemove(res: Resolver, cnt: Counter, cs: set<Contribution>, c: Contribution, p: (nat, nat))
    requires c in cs
    ensures PairWeight(res, cnt, cs, p) == Share(res, cnt, c, p) + PairWeight(res, cnt, cs - {c}, p)
    decreases |cs|
  {
    var d :| d in cs && PairWeight(res, cnt, cs, p) == Share(res, cnt, d, p) + PairWeight(res, cnt, cs - {d}, p);
    if d != c {
      PairWeightRemove(res, cnt, cs - {d}, c, p);
      PairWeightRemove(res, cnt, cs - {c}, d, p);
      assert cs - {d} - {c} == cs - {c} - {d};
    }
  }

  lemma PairWeightAdd(res: Resolver, cnt: Counter, cs: set<Contribution>, c: Contribution)
    requires c !in cs
    ensures forall p :: PairWeight(res, cnt, cs + {c}, p) == PairWeight(res, cnt, cs, p) + Share(res, cnt, c, p)
    ensures ResolvedPairs(res, cs + {c}) == ResolvedPairs(res, cs) + (if res(c).Some? then {res(c).value} else {})
  {
    forall p ensures PairWeight(res, cnt, cs + {c}, p) == PairWeight(res, cnt, cs, p) + Share(res, cnt, c, p) {
      PairWeightRemove(res, cnt, cs + {c}, c, p);
      assert (cs + {c}) - {c} == cs;
    }
  }

  /** Contributions that resolve to no pair add no pair and no weight. */
  lemma {:induction false} PairWeightAddUnresolved(res: Resolver, cnt: Counter, cs: set<Contribution>, extra: set<Contribution>)
    requires cs !! extra
    requires forall c :: c in extra ==> res(c).None?
    ensures forall p :: PairWeight(res, cnt, cs + extra, p) == PairWeight(res, cnt, cs, p)
    ensures ResolvedPairs(res, cs + extra) == ResolvedPairs(res, cs)
    decreases |extra|
  {
    if extra != {} {
      var x :| x in extra;
      PairWeightAddUnresolved(res, cnt, cs, extra - {x});
      PairWeightAdd(res, cnt, cs + (extra - {x}), x);
      assert cs + (extra - {x}) + {x} == cs + extra;
    } else {
      assert cs + extra == cs;
    }
  }

  /** A pair no contribution resolves to has weight zero. */
  lemma {:induction false} PairWeightNotResolved(res: Resolver, cnt: Counter, cs: set<Contribution>, p: (nat, nat))
    requires forall c :: c in cs ==> res(c) != Some(p)
    ensures PairWeight(res, cnt, cs, p) == 0
    decreases |cs|
  {
    if cs != {} {
      var c :| c in cs && PairWeight(res, cnt, cs, p) == Share(res, cnt, c, p) + PairWeight(res, cnt, cs - {c}, p);
      assert Share(res, cnt, c, p) == 0;
      PairWeightNotResolved(res, cnt, cs - {c}, p);
    }
  }

  /** `edge_map` after the contributions `done`: one entry per resolved pair, holding its weight. */
  ghost predicate Aggregates(res: Resolver, cnt: Counter, done: set<Contribution>, edgeMap: map<(nat, nat), nat>) {
    && edgeMap.Keys == ResolvedPairs(res, done)
    && (forall p :: p in edgeMap ==> edgeMap[p] == PairWeight(res, cnt, done, p))
  }

  /** Adding `count` to the entry for `key`, creating it at `count` when absent. */
  function AddCount(edgeMap: map<(nat, nat), nat>, key: (nat, nat), count: nat): (r: map<(nat, nat), nat>)
    ensures r.Keys == edgeMap.Keys + {key}
    ensures r[key] == (if key in edgeMap then edgeMap[key] else 0) + count
    ensures forall p :: p in edgeMap && p != key ==> r[p] == edgeMap[p]
  {
    if key in edgeMap then edgeMap[key := edgeMap[key] + count] else edgeMap[key := count]
  }

  /** A pair absent from an exact aggregation has weight zero so far. */
  lemma AbsentPairWeight(res: Resolver, cnt: Counter, done: set<Contribution>, edgeMap: map<(nat, nat), nat>, key: (nat, nat))
    requires Aggregates(res, cnt, done, edgeMap) && key !in edgeMap
    ensures PairWeight(res, cnt, done, key) == 0
  {
    forall d | d in done ensures res(d) != Some(key) {
      assert res(d).Some? ==> res(d).value in ResolvedPairs(res, done);
    }
    PairWeightNotResolved(res, cnt, done, key);
  }

  /** A contribution that resolves to a pair adds its count to that entry and changes nothing else. */
  lemma AggregateStepResolved(res: Resolver, cnt: Counter, done: set<Contribution>, edgeMap: map<(nat, nat), nat>, c: Contribution)
    requires c !in done && Aggregates(res, cnt, done, edgeMap) && res(c).Some?
    ensures Aggregates(res, cnt, done + {c}, AddCount(edgeMap, res(c).value, cnt(c)))
  {
    var key := res(c).value;
    var m2 := AddCount(edgeMap, key, cnt(c));
    PairWeightAdd(res, cnt, done, c);
    if key !in edgeMap {
      AbsentPairWeight(res, cnt, done, edgeMap, key);
    }
    forall p | p in m2 ensures m2[p] == PairWeight(res, cnt, done + {c}, p) {
      if p != key {
        assert Share(res, cnt, c, p) == 0;
      }
    }
  }

  /** A contribution that resolves to no pair leaves the aggregation as it is. */
  lemma AggregateStepUnresolved(res: Resolver, cnt: Counter, done: set<Contribution>, edgeMap: map<(nat, nat), nat>, c: Contribution)
    requires c !in done && Aggregates(res, cnt, done, edgeMap) && res(c).None?
    ensures Aggregates(res, cnt, done + {c}, edgeMap)
  {
    PairWeightAdd(res, cnt, done, c);
  }

  /** The inner loop over one source's topic counts, the source having resolved to `srcId`. */
  method AccumulateSource(md: map<string, Metadata>, nodes: seq<Node>, s: string, srcId: nat,
                          edgeMap0: map<(nat, nat), nat>, ghost done0: set<Contribution>)
    returns (edgeMap: map<(nat, nat), nat>)
    requires s in md && FindNodeId(nodes, TrimMd(s)) == Some(srcId)
    requires done0 !! Batch(md, s) && Aggregates(ResolverOf(md, nodes), CounterOf(md), done0, edgeMap0)
    ensures Aggregates(ResolverOf(md, nodes), CounterOf(md), done0 + Batch(md, s), edgeMap)
  {
    ghost var res, cnt := ResolverOf(md, nodes), CounterOf(md);
    edgeMap := edgeMap0;
    ghost var done := done0;
    ghost var processed: set<string> := {};
    var targets := md[s].topicCounts.Keys;
    while targets != {}
      invariant targets <= md[s].topicCounts.Keys
      invariant processed == md[s].topicCounts.Keys - targets
      invariant done == done0 + Pairs(s, processed)
      invariant Aggregates(res, cnt, done, edgeMap)
      decreases targets
    {
      var t :| t in targets;
      var tgtId := FindNodeId(nodes, TrimMd(t));
      ghost var before := edgeMap;
      assert res((s, t)) == Canonical(Some(srcId), tgtId);
      assert cnt((s, t)) == md[s].topicCounts[t];
      assert (s, t) in Batch(md, s);
      if tgtId.Some? {
        var count := md[s].topicCounts[t];
        if srcId != tgtId.value {
          var key := if srcId < tgtId.value then (srcId, tgtId.value) else (tgtId.value, srcId);
          edgeMap := AddCount(edgeMap, key, count);
        }
      }
      if res((s, t)).Some? {
        AggregateStepResolved(res, cnt, done, before, (s, t));
      } else {
        AggregateStepUnresolved(res, cnt, done, before, (s, t));
      }
      PairsAdd(s, processed, t);
      done := done + {(s, t)};
      processed := processed + {t};
      targets := targets - {t};
    }
    assert processed == md[s].topicCounts.Keys;
  }

  /** The outer loop over the store: after it, `edge_map` aggregates every contribution. */
  method AggregateCounts(md: map<string, Metadata>, nodes: seq<Node>) returns (edgeMap: map<(nat, nat), nat>)
    ensures Aggregates(ResolverOf(md, nodes), CounterOf(md), Contributions(md), edgeMap)
  {
    ghost var res, cnt := ResolverOf(md, nodes), CounterOf(md);
    edgeMap := map[];
    ghost var done: set<Contribution> := {};
    var sources := md.Keys;
    while sources != {}
      invariant sources <= md.Keys
      invariant done == ContributionsOf(md, md.Keys - sources)
      invariant Aggregates(res, cnt, done, edgeMap)
      decreases sources
    {
      var s :| s in sources;
      ContributionsOfAdd(md, md.Keys - sources, s);
      var srcId := FindNodeId(nodes, TrimMd(s));
      if srcId.Some? {
        edgeMap := AccumulateSource(md, nodes, s, srcId.value, edgeMap, done);
      } else {
        forall c | c in Batch(md, s) ensures res(c).None? {
          assert c.0 == s;
        }
        PairWeightAddUnresolved(res, cnt, done, Batch(md, s));
      }
      done := done + Batch(md, s);
      assert md.Keys - (sources - {s}) == (md.Keys - sources) + {s};
      sources := sources - {s};
    }
    assert md.Keys - sources == md.Keys;
  }

  /** Turning the aggregation map into edges, one per entry, in the map's (arbitrary) order. */
  method MaterializeEdges(edgeMap: map<(nat, nat), nat>) returns (edges: seq<Edge>)
    ensures forall i :: 0 <= i < |edges| ==>
              (edges[i].source, edges[i].target) in edgeMap &&
              edges[i].weight == edgeMap[(edges[i].source, edges[i].target)]
    ensures forall i, j :: 0 <= i < j < |edges| ==>
              (edges[i].source, edges[i].target) != (edges[j].source, edges[j].target)
    ensures forall p :: p in edgeMap ==> exists i :: 0 <= i < |edges| && (edges[i].source, edges[i].target) == p
  {
    edges := [];
    var pending := edgeMap.Keys;
    while pending != {}
      invariant pending <= edgeMap.Keys
      invariant forall i :: 0 <= i < |edges| ==>
                  && (edges[i].source, edges[i].target) in edgeMap
                  && (edges[i].source, edges[i].target) !in pending
                  && edges[i].weight == edgeMap[(edges[i].source, edges[i].target)]
      invariant forall i, j :: 0 <= i < j < |edges| ==>
                  (edges[i].source, edges[i].target) != (edges[j].source, edges[j].target)
      invariant forall p :: p in edgeMap && p !in pending ==>
                  exists i :: 0 <= i < |edges| && (edges[i].source, edges[i].target) == p
      decreases pending
    {
      var key :| key in pending;
      ghost var before := edges;
      edges := edges + [Edge(key.0, key.1, edgeMap[key])];
      forall p | p in edgeMap && p !in pending - {key}
        ensures exists i :: 0 <= i < |edges| && (edges[i].source, edges[i].target) == p
      {
        if p == key {
          assert (edges[|before|].source, edges[|before|].target) == p;
        } else {
          var i :| 0 <= i < |before| && (before[i].source, before[i].target) == p;
          assert edges[i] == before[i];
        }
      }
      pending := pending - {key};
    }
  }

  /** Edges exactly as specified: canonical, unique per pair, total weight per resolved pair. */
  ghost predicate EdgesOf(md: map<string, Metadata>, nodes: seq<Node>, edges: seq<Edge>) {
    var res, cnt := ResolverOf(md, nodes), CounterOf(md);
    && (forall i :: 0 <= i < |edges| ==>
          && edges[i].source < edges[i].target
          && HasId(nodes, edges[i].source) && HasId(nodes, edges[i].target)
          && (edges[i].source, edges[i].target) in ResolvedPairs(res, Contributions(md))
          && edges[i].weight == PairWeight(res, cnt, Contributions(md), (edges[i].source, edges[i].target)))
    && (forall i, j :: 0 <= i < j < |edges| ==>
          (edges[i].source, edges[i].target) != (edges[j].source, edges[j].target))
    && (forall p :: p in ResolvedPairs(res, Contributions(md)) ==>
          exists i :: 0 <= i < |edges| && (edges[i].source, edges[i].target) == p)
  }

  /** A resolved pair is canonical and joins two existing nodes. */
  lemma ResolvedPairEndpoints(md: map<string, Metadata>, nodes: seq<Node>, cs: set<Contribution>, p: (nat, nat))
    requires p in ResolvedPairs(ResolverOf(md, nodes), cs)
    ensures p.0 < p.1 && HasId(nodes, p.0) && HasId(nodes, p.1)
  {
    var c :| c in cs && ResolverOf(md, nodes)(c).Some? && ResolverOf(md, nodes)(c).value == p;
    ResolveEndpoints(md, nodes, c);
  }

  /**
   * The edge pass: aggregates every topic count into its canonical pair, then
   * materialises the aggregation. Each resolvable pair gets exactly one edge,
   * `source < target`, weighted by the counts of both directions.
   */
  method BuildEdges(md: map<string, Metadata>, nodes: seq<Node>) returns (edges: seq<Edge>)
    ensures EdgesOf(md, nodes, edges)
  {
    var edgeMap := AggregateCounts(md, nodes);
    edges := MaterializeEdges(edgeMap);
    forall i | 0 <= i < |edges|
      ensures edges[i].source < edges[i].target && HasId(nodes, edges[i].source) && HasId(nodes, edges[i].target)
    {
      ResolvedPairEndpoints(md, nodes, Contributions(md), (edges[i].source, edges[i].target));
    }
  }

  // ---------------------------------------------------------------------------
  // The guarded build
  // ---------------------------------------------------------------------------

  datatype BuildError = RebuildInProgress

  /** Nodes exactly as specified: one per trimmed key, ids allocated consecutively from `firstId`. */
  ghost predicate NodesOf(md: map<string, Metadata>, massOf: nat -> nat, firstId: nat, nodes: seq<Node>) {
    && |nodes| == |TrimmedKeys(md)|
    && (forall k :: k in TrimmedKeys(md) <==> exists i :: 0 <= i < |nodes| && nodes[i].metadataId == k)
    && (forall i :: 0 <= i < |nodes| ==> nodes[i] == MakeNode(md, nodes[i].metadataId, firstId + i, massOf))
  }

  /** The process-wide rebuild flag and the node-id allocator's counter. */
  class GraphBuilder {
    var rebuildInProgress: bool
    var nextNodeId: nat

    constructor ()
      ensures !rebuildInProgress && nextNodeId == 0
    {
      rebuildInProgress := false;
      nextNodeId := 0;
    }

    /**
     * `build_graph_from_metadata`: fails at once, changing nothing, while another
     * build holds the flag; otherwise builds the graph and clears the flag on exit.
     */
    method BuildGraphFromMetadata(md: map<string, Metadata>, massOf: nat -> nat, place: nat -> Vec3)
      returns (r: Result<GraphData, BuildError>)
      modifies this
      ensures old(rebuildInProgress) ==>
                r == Err(RebuildInProgress) && rebuildInProgress && nextNodeId == old(nextNodeId)
      ensures !old(rebuildInProgress) ==> r.Ok? && !rebuildInProgress
      ensures r.Ok? ==> Built(md, massOf, place, old(nextNodeId), r.value, nextNodeId)
    {
      if rebuildInProgress {
        return Err(RebuildInProgress);
      }
      rebuildInProgress := true;
      var graph, next := Build(md, massOf, place, nextNodeId);
      nextNodeId := next;
      rebuildInProgress := false;  // the drop guard
      r := Ok(graph);
    }
  }

  /** A node moved to `p` and stopped. */
  function Place(n: Node, p: Vec3): Node {
    n.(data := n.data.(position := p, velocity := Origin))
  }

  /** The nodes with position and velocity back at the origin: what the node and edge passes see. */
  function AtRest(nodes: seq<Node>): (r: seq<Node>)
    ensures |r| == |nodes|
    ensures forall i :: 0 <= i < |nodes| ==> r[i] == Place(nodes[i], Origin)
  {
    seq(|nodes|, i requires 0 <= i < |nodes| => Place(nodes[i], Origin))
  }

  /**
   * What a build from `md` gives when the allocator stood at `firstId`: the
   * metadata; one node per trimmed key numbered `firstId ..`, which once put
   * back at rest is exactly the node the metadata describes; the `i`-th node
   * at `place(i)` with zero velocity; the aggregated edges; the id lookup; and
   * the allocator's new value.
   */
  ghost predicate Built(md: map<string, Metadata>, massOf: nat -> nat, place: nat -> Vec3, firstId: nat, g: GraphData, next: nat) {
    && g.metadata == md
    && NodesOf(md, massOf, firstId, AtRest(g.nodes))
    && (forall i :: 0 <= i < |g.nodes| ==> g.nodes[i].data.position == place(i) && g.nodes[i].data.velocity == Origin)
    && EdgesOf(md, AtRest(g.nodes), g.edges)
    && next == firstId + |g.nodes|
    && (forall id :: id in g.idToMetadata <==> firstId <= id < next)
    && (forall i :: 0 <= i < |g.nodes| ==> g.idToMetadata[firstId + i] == g.nodes[i].metadataId)
  }

  /** The build proper: the node pass, the edge pass over the new nodes, then the initial positions. */
  method Build(md: map<string, Metadata>, massOf: nat -> nat, place: nat -> Vec3, firstId: nat) returns (g: GraphData, next: nat)
    ensures Built(md, massOf, place, firstId, g, next)
  {
    var nodes, idToMetadata;
    nodes, idToMetadata, next := BuildNodes(md, massOf, firstId);
    var edges := BuildEdges(md, nodes);
    var placed := InitializePositions(nodes, place);
    PlacedAtRest(md, massOf, firstId, nodes, place, placed);
    g := GraphData(placed, edges, md, idToMetadata);
  }

  /**
   * `initialize_random_positions`: the `i`-th node moves to `place(i)` (its
   * point on the Fibonacci sphere at a random radius, which this model takes
   * as given) and stops.
   */
  method InitializePositions(nodes: seq<Node>, place: nat -> Vec3) returns (placed: seq<Node>)
    ensures |placed| == |nodes|
    ensures forall i :: 0 <= i < |nodes| ==> placed[i] == Place(nodes[i], place(i))
  {
    placed := nodes;
    for i := 0 to |nodes|
      invariant |placed| == |nodes|
      invariant forall j :: 0 <= j < i ==> placed[j] == Place(nodes[j], place(j))
      invariant forall j :: i <= j < |nodes| ==> placed[j] == nodes[j]
    {
      placed := placed[i := Place(placed[i], place(i))];
    }
  }

  /** Placing nodes built at the origin and putting them back at rest gives the built nodes again. */
  lemma PlacedAtRest(md: map<string, Metadata>, massOf: nat -> nat, firstId: nat, nodes: seq<Node>, place: nat -> Vec3, placed: seq<Node>)
    requires NodesOf(md, massOf, firstId, nodes)
    requires |placed| == |nodes| && forall i :: 0 <= i < |nodes| ==> placed[i] == Place(nodes[i], place(i))
    ensures AtRest(placed) == nodes
  {
    forall i | 0 <= i < |nodes| ensures AtRest(placed)[i] == nodes[i] {
    }
  }

  // ---------------------------------------------------------------------------
  // Properties of the build
  // ---------------------------------------------------------------------------

  /** Built node ids are unique: they are consecutive allocator values. */
  lemma BuiltIdsUnique(md: map<string, Metadata>, massOf: nat -> nat, place: nat -> Vec3, firstId: nat, g: GraphData, next: nat)
    requires Built(md, massOf, place, firstId, g, next)
    ensures UniqueIds(g.nodes)
    ensures forall i :: 0 <= i < |g.nodes| ==> g.nodes[i].id == firstId + i
  {
    assert forall i :: 0 <= i < |g.nodes| ==> AtRest(g.nodes)[i].id == g.nodes[i].id;
  }

  /** A count recorded in either direction lands on the same pair. */
  lemma ResolveSymmetric(md: map<string, Metadata>, nodes: seq<Node>, s: string, t: string)
    ensures Resolve(md, nodes, (s, t)) == Resolve(md, nodes, (t, s))
  {
  }

  /** A file's count towards itself (after trimming) never makes an edge. */
  lemma SelfCountIgnored(md: map<string, Metadata>, nodes: seq<Node>, s: string, t: string)
    requires TrimMd(s) == TrimMd(t)
    ensures Resolve(md, nodes, (s, t)).None?
  {
  }

  /**
   * The counts of `(s, t)` and `(t, s)` add up on their shared pair: with counts
   * 3 and 2 the edge weighs 5.
   */
  lemma {:induction false} BothDirectionsAdd(md: map<string, Metadata>, nodes: seq<Node>, s: string, t: string, p: (nat, nat))
    requires s != t && Resolve(md, nodes, (s, t)) == Some(p)
    ensures PairWeight(ResolverOf(md, nodes), CounterOf(md), {(s, t), (t, s)}, p) == Count(md, (s, t)) + Count(md, (t, s))
  {
    var res, cnt := ResolverOf(md, nodes), CounterOf(md);
    ResolveSymmetric(md, nodes, s, t);
    PairWeightAdd(res, cnt, {}, (s, t));
    PairWeightAdd(res, cnt, {(s, t)}, (t, s));
    assert {} + {(s, t)} == {(s, t)};
    assert {(s, t)} + {(t, s)} == {(s, t), (t, s)};
    assert PairWeight(res, cnt, {}, p) == 0;
  }
}
