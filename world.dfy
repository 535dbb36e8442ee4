/**
 * The spring-layout world: the public pages of a Logseq graph as nodes keyed
 * 1, 2, ... in listing order. The directory listing and the file reads are
 * given as a sequence of (file name, text) entries.
 */
module SpringWorld {
  import opened PyText
  import opened PageNodes
  import GraphTypes

  const MarkdownSuffix: string := ".md"

  /** The node name of a page file: the name without its last three characters. */
  function PageName(fileName: string): string
    requires |fileName| >= 3
  {
    fileName[..|fileName| - 3]
  }

  /** A listing entry that becomes a node: a `.md` file whose text declares the page public. */
  predicate Stored(entry: (string, string)) {
    EndsWith(entry.0, MarkdownSuffix) && IsPagePublic(entry.1)
  }

  /** The stored entries, in listing order, as (node name, page text). */
  function PublicPages(listing: seq<(string, string)>): (r: seq<(string, string)>)
    ensures |r| <= |listing|
    ensures forall k :: 0 <= k < |r| ==> IsPagePublic(r[k].1)
    decreases |listing|
  {
    if |listing| == 0 then []
    else
      var n := |listing| - 1;
      var e := listing[n];
      var pre := PublicPages(listing[..n]);
      if Stored(e) then
        var page := (PageName(e.0), e.1);
        assert forall k :: 0 <= k < |pre| ==> (pre + [page])[k] == pre[k];
        pre + [page]
      else pre
  }

  /** Loading a listing in two parts stores the first part's pages, then the second's. */
  lemma {:induction false} PublicPagesAppend(a: seq<(string, string)>, b: seq<(string, string)>)
    ensures PublicPages(a + b) == PublicPages(a) + PublicPages(b)
    decreases |b|
  {
    if |b| > 0 {
      var n := |b| - 1;
      assert (a + b)[..|a| + n] == a + b[..n];
      assert (a + b)[|a| + n] == b[n];
      PublicPagesAppend(a, b[..n]);
    } else {
      assert a + b == a;
    }
  }

  lemma PublicPagesStep(listing: seq<(string, string)>, i: nat)
    requires i < |listing|
    ensures PublicPages(listing[..i + 1]) ==
            PublicPages(listing[..i]) + (if Stored(listing[i]) then [(PageName(listing[i].0), listing[i].1)] else [])
  {
    assert listing[..i + 1][..i] == listing[..i];
  }

  /**
   * Ids are handed out densely: an entry that is not stored (not `.md`, or not
   * public) consumes no id, so every later page keeps the id it would have had
   * without it.
   */
  lemma SkippedConsumeNoId(before: seq<(string, string)>, e: (string, string), after: seq<(string, string)>)
    requires !Stored(e)
    ensures PublicPages(before + [e] + after) == PublicPages(before + after)
  {
    PublicPagesAppend(before + [e], after);
    assert (before + [e])[..|before|] == before;
    assert PublicPages(before + [e]) == PublicPages(before);
    PublicPagesAppend(before, after);
  }

  /** The world: nodes by id, edges, clusters and the two energies. */
  class World {
    var nodes: map<nat, PageNode>
    /** Pairs of node ids; the edge type of the original is not part of this model. */
    var edges: seq<(nat, nat)>
    /** Sets of node ids; the cluster type of the original is not part of this model. */
    var clusters: seq<set<nat>>
    var totalPotentialEnergy: real
    var totalKineticEnergy: real

    /** A fresh world: no nodes, edges or clusters and zero energies. */
    constructor()
      ensures nodes == map[] && edges == [] && clusters == []
      ensures totalPotentialEnergy == 0.0 && totalKineticEnergy == 0.0
    {
      nodes := map[];
      edges := [];
      clusters := [];
      totalPotentialEnergy := 0.0;
      totalKineticEnergy := 0.0;
    }

    /**
     * `load_logseq_data` over the listing of the `pages` folder: every `.md`
     * entry becomes a node (named without `.md`) that loads its text; only
     * public ones are stored, under 1, 2, ... in listing order. No edges.
     */
    method LoadLogseqData(listing: seq<(string, string)>)
      modifies this
      ensures Holds(PublicPages(listing), old(nodes))
      ensures edges == old(edges) && clusters == old(clusters)
      ensures totalPotentialEnergy == old(totalPotentialEnergy) && totalKineticEnergy == old(totalKineticEnergy)
    {
      var counter: nat := 1;
      var i := 0;
      while i < |listing|
        invariant 0 <= i <= |listing|
        invariant counter == |PublicPages(listing[..i])| + 1
        invariant Holds(PublicPages(listing[..i]), old(nodes))
        invariant edges == old(edges) && clusters == old(clusters)
        invariant totalPotentialEnergy == old(totalPotentialEnergy) && totalKineticEnergy == old(totalKineticEnergy)
      {
        PublicPagesStep(listing, i);
        counter := LoadEntry(counter, listing[i], PublicPages(listing[..i]), old(nodes));
        i := i + 1;
      }
      assert listing[..i] == listing;
    }

    /** The stored nodes are exactly those of `pub` under 1..|pub|, over whatever `base` held. */
    ghost predicate Holds(pub: seq<(string, string)>, base: map<nat, PageNode>)
      reads this, nodes.Values
    {
      (forall k :: 1 <= k <= |pub| ==>
         k in nodes && nodes[k].id == k &&
         nodes[k].name == pub[k - 1].0 && nodes[k].pageContent == pub[k - 1].1 && nodes[k].isPublic) &&
      (forall k :: k in nodes <==> k in base || 1 <= k <= |pub|) &&
      (forall k :: k in base && !(1 <= k <= |pub|) ==> nodes[k] == base[k])
    }

    /** One entry of the listing: a `.md` file becomes a node that loads its text, kept only if public. */
    method LoadEntry(counter: nat, entry: (string, string), ghost pub: seq<(string, string)>, ghost base: map<nat, PageNode>)
      returns (counter': nat)
      requires counter == |pub| + 1 && Holds(pub, base)
      modifies this
      ensures var pub' := pub + (if Stored(entry) then [(PageName(entry.0), entry.1)] else []);
              counter' == |pub'| + 1 && Holds(pub', base)
      ensures edges == old(edges) && clusters == old(clusters)
      ensures totalPotentialEnergy == old(totalPotentialEnergy) && totalKineticEnergy == old(totalKineticEnergy)
    {
      counter' := counter;
      var (fileName, content) := entry;
      if EndsWith(fileName, MarkdownSuffix) {
        var node := LoadPage(counter, PageName(fileName), content);
        if node.isPublic {
          Insert(node, pub, base);
          counter' := counter + 1;
        }
      }
    }

    /** A new node for one page, with its text loaded. */
    static method LoadPage(id: nat, name: string, content: string) returns (node: PageNode)
      ensures fresh(node)
      ensures node.id == id && node.name == name && node.pageContent == content
      ensures node.isPublic == IsPagePublic(content)
    {
      node := new PageNode(id, name, GraphTypes.Origin, 1.0);
      node.LoadDataFromLogseq(content);
    }

    /** Store a public node under the next id. */
    method Insert(node: PageNode, ghost pub: seq<(string, string)>, ghost base: map<nat, PageNode>)
      requires Holds(pub, base) && node.id == |pub| + 1 && node.isPublic
      modifies this
      ensures Holds(pub + [(node.name, node.pageContent)], base)
      ensures edges == old(edges) && clusters == old(clusters)
      ensures totalPotentialEnergy == old(totalPotentialEnergy) && totalKineticEnergy == old(totalKineticEnergy)
    {
      ghost var pub' := pub + [(node.name, node.pageContent)];
      nodes := nodes[node.id := node];
      assert forall k :: 1 <= k <= |pub| ==> pub'[k - 1] == pub[k - 1] && nodes[k] == old(nodes)[k];
    }
  }
}
