/**
 * The Logseq extractor: each markdown file is split into an optional YAML
 * front matter block and its remaining text, whose wiki links become edges;
 * `create_graph_from_logseq` reads the `journals` folder and then the
 * `pages` folder into a node dictionary keyed by id and a global edge list.
 *
 * A folder is given as the sequence of its entries (file name, text), in
 * listing order, with None as the text of a file that cannot be read and
 * None for a folder that does not exist. The YAML loader is a parameter.
 */
module LogseqExtractor {
  import opened Wrappers
  import opened PyText

  const Fence: string := "---"
  const MarkdownSuffix: string := ".md"
  const LinkKind: string := "link"

  /** What the YAML loader gives: a mapping, some other value (a list, a scalar, null), or a syntax error. */
  datatype YamlValue = Mapping(entries: map<string, string>) | NotMapping
  datatype YamlResult = Loaded(value: YamlValue) | YamlError

  /** The exceptions that end the extraction. */
  datatype ParseError =
    | ReadFailed(fileName: string)      // an IOError, re-raised as MarkdownParseException
    | YamlFailed(fileName: string)      // a YAMLError, re-raised as MarkdownParseException
    | MetadataNotMapping(fileName: string) // `.get` on front matter that is not a mapping

  datatype LEdge = LEdge(source: string, target: string, linkType: string)
  datatype LNode = LNode(id: string, name: string, content: string, edges: seq<LEdge>)
  datatype LGraph = LGraph(nodes: map<string, LNode>, edges: seq<LEdge>)

  const EmptyGraph: LGraph := LGraph(map[], [])

  /**
   * `re.search(r'^---(.*?)---', content, re.DOTALL)`: front matter only at the
   * very start, `---`, then the shortest text up to the next `---`. The
   * result is the whole block and the text between the fences.
   */
  function FrontMatter(content: string): (r: Option<(string, string)>)
    ensures r.None? <==> !StartsWith(content, Fence) || IndexOf(content, Fence, 3).None?
    ensures r.Some? ==>
              var (block, inner) := r.value;
              block == Fence + inner + Fence && StartsWith(content, block) &&
              forall j :: 3 <= j < 3 + |inner| ==> !OccursAt(content, Fence, j)
  {
    if !StartsWith(content, Fence) then None
    else match IndexOf(content, Fence, 3)
      case None => None
      case Some(k) =>
        assert content[..k + 3] == content[..3] + content[3..k] + content[k..k + 3];
        Some((content[..k + 3], content[3..k]))
  }

  /** `parse_markdown_file` once the file is read: (metadata, links, content after removal). */
  function ParseMarkdownFile(fileName: string, content: string, yaml: string -> YamlResult)
    : (r: Result<(YamlValue, seq<string>, string), ParseError>)
    ensures FrontMatter(content).None? ==> r == Ok((Mapping(map[]), Links(content), content))
    ensures FrontMatter(content).Some? && yaml(FrontMatter(content).value.1).YamlError? ==>
              r == Err(YamlFailed(fileName))
    ensures FrontMatter(content).Some? && yaml(FrontMatter(content).value.1).Loaded? ==>
              var block := FrontMatter(content).value.0;
              var body := ReplaceAll(content, block, "");
              r == Ok((yaml(FrontMatter(content).value.1).value, Links(body), body)) &&
              body == ReplaceAll(content[|block|..], block, "")
  {
    match FrontMatter(content)
    case None => Ok((Mapping(map[]), Links(content), content))
    case Some((block, inner)) =>
      match yaml(inner)
      case YamlError => Err(YamlFailed(fileName))
      case Loaded(metadata) =>
        var body := ReplaceAll(content, block, "");
        Ok((metadata, Links(body), body))
  }

  /**
   * Links written inside the front matter give no edge: when the block does
   * not recur after it, the links are exactly those of the text after the
   * block.
   */
  lemma FrontMatterLinksIgnored(fileName: string, content: string, yaml: string -> YamlResult)
    requires FrontMatter(content).Some? && yaml(FrontMatter(content).value.1).Loaded?
    requires var block := FrontMatter(content).value.0; IndexOf(content[|block|..], block, 0).None?
    ensures var block := FrontMatter(content).value.0;
            ParseMarkdownFile(fileName, content, yaml).Ok? &&
            ParseMarkdownFile(fileName, content, yaml).value.1 == Links(content[|block|..]) &&
            ParseMarkdownFile(fileName, content, yaml).value.2 == content[|block|..]
  {
    var block := FrontMatter(content).value.0;
    ReplaceAbsent(content[|block|..], block, "");
  }

  /** The node of one `.md` file with one edge per link, in link order, whether or not the target exists. */
  function FileNode(fileName: string, text: Option<string>, yaml: string -> YamlResult): (r: Result<LNode, ParseError>)
    ensures text.None? ==> r == Err(ReadFailed(fileName))
    ensures r.Ok? ==>
              text.Some? && ParseMarkdownFile(fileName, text.value, yaml).Ok? &&
              var (metadata, links, body) := ParseMarkdownFile(fileName, text.value, yaml).value;
              metadata.Mapping? &&
              r.value.id == (if "id" in metadata.entries then metadata.entries["id"] else fileName) &&
              r.value.name == (if "title" in metadata.entries then metadata.entries["title"]
                               else ReplaceAll(fileName, MarkdownSuffix, "")) &&
              r.value.content == body && |r.value.edges| == |links| &&
              forall k :: 0 <= k < |links| ==> r.value.edges[k] == LEdge(r.value.id, links[k], LinkKind)
    ensures r.Err? <==> text.None? || ParseMarkdownFile(fileName, text.value, yaml).Err? ||
                        ParseMarkdownFile(fileName, text.value, yaml).value.0.NotMapping?
  {
    match text
    case None => Err(ReadFailed(fileName))
    case Some(content) =>
      match ParseMarkdownFile(fileName, content, yaml)
      case Err(e) => Err(e)
      case Ok((metadata, links, body)) =>
        match metadata
        case NotMapping => Err(MetadataNotMapping(fileName))
        case Mapping(entries) =>
          var id := if "id" in entries then entries["id"] else fileName;
          var name := if "title" in entries then entries["title"] else ReplaceAll(fileName, MarkdownSuffix, "");
          Ok(LNode(id, name, body, seq(|links|, k requires 0 <= k < |links| => LEdge(id, links[k], LinkKind))))
  }

  /** One folder entry: names not ending in `.md` are not read; an error ends the extraction. */
  function EntryStep(acc: Result<LGraph, ParseError>, entry: (string, Option<string>), yaml: string -> YamlResult)
    : Result<LGraph, ParseError>
  {
    match acc
    case Err(e) => Err(e)
    case Ok(g) =>
      if !EndsWith(entry.0, MarkdownSuffix) then Ok(g)
      else match FileNode(entry.0, entry.1, yaml)
        case Err(e) => Err(e)
        case Ok(node) => Ok(LGraph(g.nodes[node.id := node], g.edges + node.edges))
  }

  /**
   * `parse_folder` from the state `acc` over the entries of one folder, in
   * listing order. A success starts from a success, loses no node id, and
   * every node it holds is stored under its own id or is one of `acc`'s.
   */
  function ParseFolder(acc: Result<LGraph, ParseError>, entries: seq<(string, Option<string>)>, yaml: string -> YamlResult)
    : (r: Result<LGraph, ParseError>)
    ensures r.Ok? ==> acc.Ok? && acc.value.nodes.Keys <= r.value.nodes.Keys
    ensures r.Ok? ==> forall id :: id in r.value.nodes ==>
              r.value.nodes[id].id == id || (id in acc.value.nodes && r.value.nodes[id] == acc.value.nodes[id])
    decreases |entries|
  {
    if |entries| == 0 then acc
    else EntryStep(ParseFolder(acc, entries[..|entries| - 1], yaml), entries[|entries| - 1], yaml)
  }

  /** A folder that does not exist is skipped. */
  function Entries(folder: Option<seq<(string, Option<string>)>>): seq<(string, Option<string>)> {
    if folder.Some? then folder.value else []
  }

  /**
   * `create_graph_from_logseq`: the journals, then the pages. Every node is
   * stored under its own id; with neither folder present the graph is empty.
   */
  function CreateGraph(journals: Option<seq<(string, Option<string>)>>, pages: Option<seq<(string, Option<string>)>>,
                       yaml: string -> YamlResult): (r: Result<LGraph, ParseError>)
    ensures r.Ok? ==> forall id :: id in r.value.nodes ==> r.value.nodes[id].id == id
    ensures journals.None? && pages.None? ==> r == Ok(EmptyGraph)
  {
    ParseFolder(ParseFolder(Ok(EmptyGraph), Entries(journals), yaml), Entries(pages), yaml)
  }

  /** Reading two listings one after the other is reading their concatenation. */
  lemma {:induction false} ParseFolderAppend(acc: Result<LGraph, ParseError>, a: seq<(string, Option<string>)>,
                                            b: seq<(string, Option<string>)>, yaml: string -> YamlResult)
    ensures ParseFolder(acc, a + b, yaml) == ParseFolder(ParseFolder(acc, a, yaml), b, yaml)
    decreases |b|
  {
    if |b| == 0 {
      assert a + b == a;
    } else {
      var n := |b| - 1;
      assert (a + b)[..|a| + n] == a + b[..n];
      ParseFolderAppend(acc, a, b[..n], yaml);
    }
  }

  /**
   * The journals come first: the result is that of one listing of the
   * journal entries followed by the page entries, so a page replaces a
   * journal of the same id.
   */
  lemma JournalsBeforePages(journals: seq<(string, Option<string>)>, pages: seq<(string, Option<string>)>,
                            yaml: string -> YamlResult)
    ensures CreateGraph(Some(journals), Some(pages), yaml) == ParseFolder(Ok(EmptyGraph), journals + pages, yaml)
  {
    ParseFolderAppend(Ok(EmptyGraph), journals, pages, yaml);
  }

  /** An error is final: no later entry can undo it. */
  lemma {:induction false} ErrorIsFinal(e: ParseError, entries: seq<(string, Option<string>)>, yaml: string -> YamlResult)
    ensures ParseFolder(Err(e), entries, yaml) == Err(e)
    decreases |entries|
  {
    if |entries| > 0 {
      ErrorIsFinal(e, entries[..|entries| - 1], yaml);
    }
  }

  /** An entry whose name does not end in `.md` is never read, even when it could not be. */
  lemma NonMarkdownIgnored(acc: Result<LGraph, ParseError>, entries: seq<(string, Option<string>)>,
                           entry: (string, Option<string>), yaml: string -> YamlResult)
    requires !EndsWith(entry.0, MarkdownSuffix)
    ensures ParseFolder(acc, entries + [entry], yaml) == ParseFolder(acc, entries, yaml)
  {
    assert (entries + [entry])[..|entries|] == entries;
  }

  /**
   * A file stores its node under its id, replacing a node of the same id
   * from an earlier file, while every edge seen so far stays in the global
   * list, followed by the new node's edges.
   */
  lemma LaterFileReplacesNode(acc: Result<LGraph, ParseError>, entries: seq<(string, Option<string>)>,
                              entry: (string, Option<string>), yaml: string -> YamlResult)
    requires EndsWith(entry.0, MarkdownSuffix)
    requires ParseFolder(acc, entries + [entry], yaml).Ok?
    ensures var before := ParseFolder(acc, entries, yaml);
            var after := ParseFolder(acc, entries + [entry], yaml).value;
            var node := FileNode(entry.0, entry.1, yaml);
            before.Ok? && node.Ok? &&
            after.nodes == before.value.nodes[node.value.id := node.value] &&
            after.edges == before.value.edges + node.value.edges
  {
    assert (entries + [entry])[..|entries|] == entries;
  }

  /** The global edge list only grows, and every edge added to it has type `link`. */
  lemma {:induction false} EdgesOnlyGrow(g: LGraph, entries: seq<(string, Option<string>)>, yaml: string -> YamlResult)
    requires ParseFolder(Ok(g), entries, yaml).Ok?
    ensures g.edges <= ParseFolder(Ok(g), entries, yaml).value.edges
    ensures forall k :: |g.edges| <= k < |ParseFolder(Ok(g), entries, yaml).value.edges| ==>
              ParseFolder(Ok(g), entries, yaml).value.edges[k].linkType == LinkKind
    decreases |entries|
  {
    if |entries| > 0 {
      var n := |entries| - 1;
      var prev := ParseFolder(Ok(g), entries[..n], yaml);
      assert prev.Ok?;
      EdgesOnlyGrow(g, entries[..n], yaml);
    }
  }

  /** `parse_folder`: the loop over one folder's entries, ending at the first error. */
  method ParseFolderLoop(g: LGraph, entries: seq<(string, Option<string>)>, yaml: string -> YamlResult)
    returns (r: Result<LGraph, ParseError>)
    ensures r == ParseFolder(Ok(g), entries, yaml)
  {
    var nodes := g.nodes;
    var edges := g.edges;
    var i := 0;
    while i < |entries|
      invariant 0 <= i <= |entries|
      invariant ParseFolder(Ok(g), entries[..i], yaml) == Ok(LGraph(nodes, edges))
    {
      assert entries[..i + 1][..i] == entries[..i];
      var (fileName, text) := entries[i];
      if EndsWith(fileName, MarkdownSuffix) {
        var node := FileNode(fileName, text, yaml);
        if node.Err? {
          r := Err(node.error);
          ParseFolderAppend(Ok(g), entries[..i + 1], entries[i + 1..], yaml);
          assert entries[..i + 1] + entries[i + 1..] == entries;
          ErrorIsFinal(node.error, entries[i + 1..], yaml);
          return;
        }
        nodes := nodes[node.value.id := node.value];
        edges := AppendEdges(edges, node.value.edges);
      }
      i := i + 1;
    }
    assert entries[..i] == entries;
    r := Ok(LGraph(nodes, edges));
  }

  /** The link loop: each edge goes to `node.edges` (already built) and to the global list. */
  method AppendEdges(edges: seq<LEdge>, nodeEdges: seq<LEdge>) returns (edges': seq<LEdge>)
    ensures edges' == edges + nodeEdges
  {
    edges' := edges;
    var j := 0;
    while j < |nodeEdges|
      invariant 0 <= j <= |nodeEdges|
      invariant edges' == edges + nodeEdges[..j]
    {
      assert nodeEdges[..j + 1] == nodeEdges[..j] + [nodeEdges[j]];
      edges' := edges' + [nodeEdges[j]];
      j := j + 1;
    }
    assert nodeEdges[..j] == nodeEdges;
  }

  /** `create_graph_from_logseq`: the journals folder if it exists, then the pages folder if it exists. */
  method CreateGraphFromLogseq(journals: Option<seq<(string, Option<string>)>>,
                               pages: Option<seq<(string, Option<string>)>>, yaml: string -> YamlResult)
    returns (r: Result<LGraph, ParseError>)
    ensures r == CreateGraph(journals, pages, yaml)
  {
    var g := EmptyGraph;
    if journals.Some? {
      var j := ParseFolderLoop(g, journals.value, yaml);
      if j.Err? {
        ErrorIsFinal(j.error, Entries(pages), yaml);
        return j;
      }
      g := j.value;
    }
    if pages.Some? {
      r := ParseFolderLoop(g, pages.value, yaml);
    } else {
      r := Ok(g);
    }
  }
}
