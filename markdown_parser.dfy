/**
 * `parse_markdown_files` of the Logseq loader: every readable, non-blank
 * `*.md` file of a folder becomes a node, and each of its wiki links becomes
 * an edge when a node of that name is already registered. The folder is
 * given as the sequence of its files in the order the glob yields them;
 * nodes are referred to by their position in the node list, which stands for
 * the object an edge holds.
 */
module LinkGraph {
  import opened Wrappers
  import opened PyText

  /** One `*.md` file: its base name, its text (None when the read fails) and its size in bytes. */
  datatype MdFile = MdFile(fileName: string, content: Option<string>, size: nat)

  /** The integer triple the node defaults use for position and velocity. */
  type Triple = (int, int, int)

  datatype MdNode = MdNode(
    id: string, name: string, position: Triple, weight: real, velocity: Triple,
    pinned: bool, blockContent: string, linkTypes: seq<string>, fileSize: nat)

  /** An edge between the nodes at positions `start` and `end` of the node list. */
  datatype MdEdge = MdEdge(start: nat, end: nat, weight: real, isActive: bool, linkType: string)

  const Rest: Triple := (0, 0, 0)
  const LinkKind: string := "link"

  /** The parser's three accumulators: the node list, the edge list and `node_dict`. */
  datatype Parsed = Parsed(nodes: seq<MdNode>, edges: seq<MdEdge>, byName: map<string, nat>)

  /** The node of a file: id the full file name, name the text before its first `.`, the links of its text. */
  function NodeOf(fileName: string, content: string, size: nat): (n: MdNode)
    ensures n.id == fileName && StartsWith(fileName, n.name) && n.blockContent == content
    ensures n.linkTypes == Links(content) && n.fileSize == size
    ensures n.position == Rest && n.velocity == Rest && n.weight == 1.0 && !n.pinned
  {
    MdNode(fileName, BeforeFirst(fileName, "."), Rest, 1.0, Rest, false, content, Links(content), size)
  }

  /** The edges from node `from` for its links, in link order, one per link already in `byName`. */
  function LinkEdges(byName: map<string, nat>, from: nat, links: seq<string>): (r: seq<MdEdge>)
    ensures |r| <= |links|
    ensures forall e :: e in r ==> e.start == from && e.weight == 1.0 && e.isActive && e.linkType == LinkKind
    decreases |links|
  {
    if |links| == 0 then []
    else
      var n := |links| - 1;
      LinkEdges(byName, from, links[..n]) +
      (if links[n] in byName then [MdEdge(from, byName[links[n]], 1.0, true, LinkKind)] else [])
  }

  /** Every such edge ends at the node `byName` gives for one of the links. */
  lemma {:induction false} LinkEdgesTargets(byName: map<string, nat>, from: nat, links: seq<string>)
    ensures forall e :: e in LinkEdges(byName, from, links) ==>
              exists l :: l in links && l in byName && byName[l] == e.end
    decreases |links|
  {
    if |links| > 0 {
      var n := |links| - 1;
      LinkEdgesTargets(byName, from, links[..n]);
      assert forall l :: l in links[..n] ==> l in links;
    }
  }

  /**
   * One file of the loop: unreadable or blank files change nothing; any other
   * file appends its node, binds its name to that node, and appends edges
   * from that node only.
   */
  function Step(p: Parsed, f: MdFile): (r: Parsed)
    ensures f.content.None? || Strip(f.content.value) == "" ==> r == p
    ensures f.content.Some? && Strip(f.content.value) != "" ==>
              var node := NodeOf(f.fileName, f.content.value, f.size);
              r.nodes == p.nodes + [node] && r.byName == p.byName[node.name := |p.nodes|] &&
              p.edges <= r.edges && forall e :: e in r.edges[|p.edges|..] ==> e.start == |p.nodes|
  {
    match f.content
    case None => p
    case Some(content) =>
      if Strip(content) == "" then p
      else
        var node := NodeOf(f.fileName, content, f.size);
        var i := |p.nodes|;
        var byName := p.byName[node.name := i];
        Parsed(p.nodes + [node], p.edges + LinkEdges(byName, i, node.linkTypes), byName)
  }

  /** The accumulators after the loop has seen `files`: at most one node per file. */
  function Parse(files: seq<MdFile>): (r: Parsed)
    ensures |r.nodes| <= |files|
    decreases |files|
  {
    if |files| == 0 then Parsed([], [], map[])
    else Step(Parse(files[..|files| - 1]), files[|files| - 1])
  }

  /** The node `n` is that of a file of `files`: its id is the file's name and its text the file's. */
  ghost predicate FromFile(files: seq<MdFile>, n: MdNode) {
    exists i :: 0 <= i < |files| && files[i].fileName == n.id && files[i].content == Some(n.blockContent)
  }

  /** Every parsed node is the node of a file of the folder. */
  lemma {:induction false} NodesFromFiles(files: seq<MdFile>)
    ensures forall k :: 0 <= k < |Parse(files).nodes| ==> FromFile(files, Parse(files).nodes[k])
    decreases |files|
  {
    if |files| > 0 {
      var n := |files| - 1;
      var q := Parse(files[..n]);
      var f := files[n];
      NodesFromFiles(files[..n]);
      assert Parse(files) == Step(q, f);
      forall k | 0 <= k < |q.nodes| ensures FromFile(files, q.nodes[k]) {
        FromFilePrefix(files, n, q.nodes[k]);
      }
      if f.content.Some? && Strip(f.content.value) != "" {
        var node := NodeOf(f.fileName, f.content.value, f.size);
        assert FromFile(files, node) by {
          assert files[n].fileName == node.id && files[n].content == Some(node.blockContent);
        }
        assert Parse(files).nodes == q.nodes + [node];
      }
    }
  }

  lemma FromFilePrefix(files: seq<MdFile>, n: nat, node: MdNode)
    requires n <= |files| && FromFile(files[..n], node)
    ensures FromFile(files, node)
  {
    var i :| 0 <= i < n && files[..n][i].fileName == node.id && files[..n][i].content == Some(node.blockContent);
    assert files[i] == files[..n][i];
  }

  /**
   * What the loop maintains: `node_dict` maps each name to the last node of
   * that name, and every edge goes from a node to an earlier-or-same node
   * whose name is one of the first node's links, with weight 1.0, active, of
   * type `link`.
   */
  ghost predicate WellFormed(p: Parsed) {
    (forall n :: n in p.byName ==> p.byName[n] < |p.nodes| && p.nodes[p.byName[n]].name == n) &&
    (forall k :: 0 <= k < |p.nodes| ==> p.nodes[k].name in p.byName && k <= p.byName[p.nodes[k].name]) &&
    (forall e :: e in p.edges ==>
       e.end <= e.start < |p.nodes| && p.nodes[e.end].name in p.nodes[e.start].linkTypes &&
       e.weight == 1.0 && e.isActive && e.linkType == LinkKind)
  }

  lemma StepWellFormed(p: Parsed, f: MdFile)
    requires WellFormed(p)
    ensures WellFormed(Step(p, f))
  {
    if f.content.Some? && Strip(f.content.value) != "" {
      var content := f.content.value;
      var node := NodeOf(f.fileName, content, f.size);
      var i := |p.nodes|;
      var byName := p.byName[node.name := i];
      var q := Step(p, f);
      assert q.nodes == p.nodes + [node] && q.byName == byName;
      assert q.edges == p.edges + LinkEdges(byName, i, node.linkTypes);
      LinkEdgesTargets(byName, i, node.linkTypes);
      forall e | e in LinkEdges(byName, i, node.linkTypes)
        ensures e.end <= e.start < |q.nodes| && q.nodes[e.end].name in q.nodes[e.start].linkTypes
      {
        var l :| l in node.linkTypes && l in byName && byName[l] == e.end;
        assert q.nodes[e.end].name == l;
      }
    }
  }

  /** The invariant holds after every prefix of the folder. */
  lemma {:induction false} ParseWellFormed(files: seq<MdFile>)
    ensures WellFormed(Parse(files))
    decreases |files|
  {
    if |files| > 0 {
      ParseWellFormed(files[..|files| - 1]);
      StepWellFormed(Parse(files[..|files| - 1]), files[|files| - 1]);
    }
  }

  /** A file whose text is empty or whitespace only adds no node and no edge. */
  lemma BlankFileSkipped(files: seq<MdFile>, f: MdFile)
    requires f.content.Some? && IsBlank(f.content.value)
    ensures Parse(files + [f]) == Parse(files)
  {
    StripEmptyIffBlank(f.content.value);
    assert (files + [f])[..|files|] == files;
  }

  /**
   * A readable non-blank file appends exactly its own node, rebinds its name
   * to it (an earlier node of the same name stays in the list) and only
   * appends edges.
   */
  lemma FileAppendsNode(files: seq<MdFile>, f: MdFile)
    requires f.content.Some? && !IsBlank(f.content.value)
    ensures var before := Parse(files);
            var after := Parse(files + [f]);
            var node := NodeOf(f.fileName, f.content.value, f.size);
            after.nodes == before.nodes + [node] &&
            after.byName == before.byName[node.name := |before.nodes|] &&
            before.edges <= after.edges
  {
    StripEmptyIffBlank(f.content.value);
    assert (files + [f])[..|files|] == files;
  }

  lemma {:induction false} LinkEdgesOfKnown(byName: map<string, nat>, from: nat, links: seq<string>, k: nat)
    requires k < |links| && links[k] in byName
    ensures MdEdge(from, byName[links[k]], 1.0, true, LinkKind) in LinkEdges(byName, from, links)
    decreases |links|
  {
    if k < |links| - 1 {
      LinkEdgesOfKnown(byName, from, links[..|links| - 1], k);
    }
  }

  /**
   * When every link is registered, the edges are exactly one per link, in
   * link order, to the node the link names: a repeated link gives a repeated
   * edge.
   */
  lemma {:induction false} LinkEdgesAllKnown(byName: map<string, nat>, from: nat, links: seq<string>)
    requires forall k :: 0 <= k < |links| ==> links[k] in byName
    ensures var r := LinkEdges(byName, from, links);
            |r| == |links| &&
            forall k :: 0 <= k < |r| ==> r[k] == MdEdge(from, byName[links[k]], 1.0, true, LinkKind)
    decreases |links|
  {
    if |links| > 0 {
      var n := |links| - 1;
      LinkEdgesAllKnown(byName, from, links[..n]);
      var prefix := LinkEdges(byName, from, links[..n]);
      var r := LinkEdges(byName, from, links);
      assert r == prefix + [MdEdge(from, byName[links[n]], 1.0, true, LinkKind)];
      forall k | 0 <= k < |r| ensures r[k] == MdEdge(from, byName[links[k]], 1.0, true, LinkKind) {
        if k < n {
          assert r[k] == prefix[k] && links[..n][k] == links[k];
        }
      }
    }
  }

  /** Links to names not yet registered, such as files later in the folder, give no edge. */
  lemma {:induction false} LinkEdgesUnknown(byName: map<string, nat>, from: nat, links: seq<string>)
    requires forall k :: 0 <= k < |links| ==> links[k] !in byName
    ensures LinkEdges(byName, from, links) == []
    decreases |links|
  {
    if |links| > 0 {
      LinkEdgesUnknown(byName, from, links[..|links| - 1]);
    }
  }

  /** A page that links to its own name gets a self-edge: its node is registered before its links are scanned. */
  lemma SelfLinkSelfEdge(files: seq<MdFile>, f: MdFile)
    requires f.content.Some? && !IsBlank(f.content.value)
    requires var n := NodeOf(f.fileName, f.content.value, f.size); n.name in n.linkTypes
    ensures var i := |Parse(files).nodes|;
            MdEdge(i, i, 1.0, true, LinkKind) in Parse(files + [f]).edges
  {
    StripEmptyIffBlank(f.content.value);
    assert (files + [f])[..|files|] == files;
    var n := NodeOf(f.fileName, f.content.value, f.size);
    var i := |Parse(files).nodes|;
    var byName := Parse(files).byName[n.name := i];
    var k :| 0 <= k < |n.linkTypes| && n.linkTypes[k] == n.name;
    LinkEdgesOfKnown(byName, i, n.linkTypes, k);
  }

  /** `parse_markdown_files` over the files of a folder, in glob order. */
  method ParseMarkdownFiles(files: seq<MdFile>) returns (nodes: seq<MdNode>, edges: seq<MdEdge>)
    ensures nodes == Parse(files).nodes && edges == Parse(files).edges
  {
    nodes := [];
    edges := [];
    var byName: map<string, nat> := map[];
    var i := 0;
    while i < |files|
      invariant 0 <= i <= |files|
      invariant Parsed(nodes, edges, byName) == Parse(files[..i])
    {
      assert files[..i + 1][..i] == files[..i];
      assert Parse(files[..i + 1]) == Step(Parse(files[..i]), files[i]);
      match files[i].content {
        case None =>
        case Some(content) =>
          if Strip(content) != "" {
            var node := NodeOf(files[i].fileName, content, files[i].size);
            nodes := nodes + [node];
            byName := byName[node.name := |nodes| - 1];
            edges := AddLinkEdges(edges, byName, node.name, node.linkTypes);
          }
      }
      i := i + 1;
    }
    assert files[..i] == files;
  }

  /** The link loop of one node: an edge from `node_dict[name]` for each link found in `node_dict`. */
  method AddLinkEdges(edges: seq<MdEdge>, byName: map<string, nat>, name: string, links: seq<string>)
    returns (edges': seq<MdEdge>)
    requires name in byName
    ensures edges' == edges + LinkEdges(byName, byName[name], links)
  {
    edges' := edges;
    var j := 0;
    while j < |links|
      invariant 0 <= j <= |links|
      invariant edges' == edges + LinkEdges(byName, byName[name], links[..j])
    {
      assert links[..j + 1][..j] == links[..j];
      if links[j] in byName {
        edges' := edges' + [MdEdge(byName[name], byName[links[j]], 1.0, true, LinkKind)];
      }
      j := j + 1;
    }
    assert links[..j] == links;
  }

  // ---------------------------------------------------------------------------
  // JSON records

  /** The JSON values the records hold. */
  datatype Json = JStr(s: string) | JInt(i: int) | JReal(r: real) | JBool(b: bool) | JList(items: seq<Json>)

  function TripleJson(t: Triple): Json {
    JList([JInt(t.0), JInt(t.1), JInt(t.2)])
  }

  function JsonTriple(j: Json): Option<Triple> {
    if j.JList? && |j.items| == 3 && j.items[0].JInt? && j.items[1].JInt? && j.items[2].JInt?
    then Some((j.items[0].i, j.items[1].i, j.items[2].i))
    else None
  }

  function StrList(ss: seq<string>): (j: Json)
    ensures j.JList? && |j.items| == |ss|
    ensures forall k :: 0 <= k < |ss| ==> j.items[k] == JStr(ss[k])
  {
    JList(seq(|ss|, k requires 0 <= k < |ss| => JStr(ss[k])))
  }

  const NodeKeys: set<string> :=
    {"id", "name", "position", "weight", "velocity", "pinned", "block_content", "link_types", "file_size"}

  /** `Node.to_dict`: every attribute under its own key. */
  function NodeToDict(n: MdNode): (d: map<string, Json>)
    ensures d.Keys == NodeKeys
  {
    map["id" := JStr(n.id), "name" := JStr(n.name), "position" := TripleJson(n.position),
        "weight" := JReal(n.weight), "velocity" := TripleJson(n.velocity), "pinned" := JBool(n.pinned),
        "block_content" := JStr(n.blockContent), "link_types" := StrList(n.linkTypes),
        "file_size" := JInt(n.fileSize)]
  }

  /** Reading a node record back; the inverse of `NodeToDict`. */
  function NodeFromDict(d: map<string, Json>): Option<MdNode> {
    if NodeKeys <= d.Keys && d["id"].JStr? && d["name"].JStr? && JsonTriple(d["position"]).Some? &&
       d["weight"].JReal? && JsonTriple(d["velocity"]).Some? && d["pinned"].JBool? &&
       d["block_content"].JStr? && d["link_types"].JList? &&
       (forall k :: 0 <= k < |d["link_types"].items| ==> d["link_types"].items[k].JStr?) &&
       d["file_size"].JInt? && d["file_size"].i >= 0
    then
      var items := d["link_types"].items;
      Some(MdNode(d["id"].s, d["name"].s, JsonTriple(d["position"]).value, d["weight"].r,
                  JsonTriple(d["velocity"]).value, d["pinned"].b, d["block_content"].s,
                  seq(|items|, k requires 0 <= k < |items| => items[k].s), d["file_size"].i))
    else None
  }

  /** A node record holds the whole node: reading it back gives the node. */
  lemma NodeRecordRoundTrip(n: MdNode)
    ensures NodeFromDict(NodeToDict(n)) == Some(n)
  {
    var d := NodeToDict(n);
    var items := d["link_types"].items;
    assert seq(|items|, k requires 0 <= k < |items| => items[k].s) == n.linkTypes;
  }

  const EdgeKeys: set<string> := {"start_node", "end_node", "weight", "is_active", "link_type"}

  /** `Edge.to_dict`: the endpoints are written as their nodes' ids. */
  function EdgeToDict(nodes: seq<MdNode>, e: MdEdge): (d: map<string, Json>)
    requires e.start < |nodes| && e.end < |nodes|
    ensures d.Keys == EdgeKeys
  {
    map["start_node" := JStr(nodes[e.start].id), "end_node" := JStr(nodes[e.end].id),
        "weight" := JReal(e.weight), "is_active" := JBool(e.isActive), "link_type" := JStr(e.linkType)]
  }

  /**
   * In the records of a parsed folder every edge names its endpoints by file
   * name, extension included: the start is a parsed file, and the end is a
   * file whose name up to its first `.` is one of the start's links.
   */
  lemma ParsedEdgeRecords(files: seq<MdFile>, e: MdEdge)
    requires e in Parse(files).edges
    ensures var p := Parse(files);
            e.end <= e.start < |p.nodes| &&
            var d := EdgeToDict(p.nodes, e);
            d["start_node"] == JStr(p.nodes[e.start].id) && d["end_node"] == JStr(p.nodes[e.end].id) &&
            BeforeFirst(p.nodes[e.end].id, ".") in p.nodes[e.start].linkTypes &&
            d["weight"] == JReal(1.0) && d["is_active"] == JBool(true) && d["link_type"] == JStr(LinkKind)
  {
    var p := Parse(files);
    ParseWellFormed(files);
    WellFormedEdge(p, e);
    NodeNamedByFile(files, e.end);
    EdgeRecordFields(p.nodes, e);
  }

  lemma NodeNamedByFile(files: seq<MdFile>, k: nat)
    requires k < |Parse(files).nodes|
    ensures Parse(files).nodes[k].name == BeforeFirst(Parse(files).nodes[k].id, ".")
  {
    NodesAreOfFiles(files);
    assert Parse(files).nodes[k] in Parse(files).nodes;
  }

  lemma EdgeRecordFields(nodes: seq<MdNode>, e: MdEdge)
    requires e.start < |nodes| && e.end < |nodes|
    ensures var d := EdgeToDict(nodes, e);
            d["start_node"] == JStr(nodes[e.start].id) && d["end_node"] == JStr(nodes[e.end].id) &&
            d["weight"] == JReal(e.weight) && d["is_active"] == JBool(e.isActive) && d["link_type"] == JStr(e.linkType)
  {
  }

  lemma WellFormedEdge(p: Parsed, e: MdEdge)
    requires WellFormed(p) && e in p.edges
    ensures e.end <= e.start < |p.nodes| && p.nodes[e.end].name in p.nodes[e.start].linkTypes
    ensures e.weight == 1.0 && e.isActive && e.linkType == LinkKind
  {
  }

  /** Every parsed node is the node of its file: name the id up to its first `.`, at rest, weight 1.0, unpinned. */
  lemma {:induction false} NodesAreOfFiles(files: seq<MdFile>)
    ensures forall n :: n in Parse(files).nodes ==>
              n.name == BeforeFirst(n.id, ".") && n.position == Rest && n.velocity == Rest &&
              n.weight == 1.0 && !n.pinned && n.linkTypes == Links(n.blockContent)
    decreases |files|
  {
    if |files| > 0 {
      NodesAreOfFiles(files[..|files| - 1]);
    }
  }
}
